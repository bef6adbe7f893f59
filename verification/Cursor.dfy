/** The result cursor: it scans the response bytes again, lazily. */
module Cursor {
  import opened Wrappers
  import opened Wire
  import opened Framing
  import opened Parser

  /** How the cursor tells frames apart. */
  datatype Role = Columns | Data | Copied | Closing | Idle | Aside

  function RoleOf(kind: byte): Role {
    match EventOf(kind)
    case RowDescription => Columns
    case DataRow => Data
    case CopyData => Copied
    case CommandComplete => Closing
    case Ready => Idle
    case _ => Aside
  }

  /** What a frame loop meets: the role and payload of a frame, or why there is
      none. */
  datatype Met = Nothing | Broken | Met(role: Role, payload: bytes)

  function Meet(s: bytes): Met {
    match Scan(s)
    case Complete(f) => Met(RoleOf(f.kind), f.payload)
    case Malformed(_) => Broken
    case _ => Nothing
  }

  function Behind(s: bytes): (t: bytes)
    ensures |t| <= |s|
    ensures Scan(s).Moves() ==> |t| < |s|
  {
    s[Scan(s).Size()..]
  }

  /** What a frame loop looks for: a header, a row, the end of the current set,
      or the start of the next one. */
  datatype Aim = Header | Row | End | NextSet
  {
    /** The frames the loop passes over. */
    predicate Passes(role: Role) {
      match this
      case Header => role.Aside? || role.Idle?
      case Row => role.Aside? || role.Columns?
      case End => role.Aside? || role.Columns? || role.Data? || role.Copied?
      case NextSet => role.Aside? || role.Copied?
    }
  }

  /** The bytes from the first frame that is not passed over. */
  function Skip(s: bytes, aim: Aim): (t: bytes)
    ensures |t| <= |s|
    ensures !(Meet(t).Met? && aim.Passes(Meet(t).role))
    decreases |s|
  {
    if Meet(s).Met? && aim.Passes(Meet(s).role) then Skip(Behind(s), aim) else s
  }

  /** The cursor's state: the bytes from the cursor on, the columns, the command
      tag, and whether the current result set is over. */
  datatype Position = Position(rest: bytes, fields: seq<Field>, tag: bytes, done: bool)

  /** `parse_metadata`, from the bytes `s`: the header of a result set. */
  function Metadata(s: bytes): (c: Position)
    ensures |c.rest| <= |s|
  {
    var t := Skip(s, Header);
    match Meet(t)
    case Nothing => Position(t, [], [], false)
    case Broken => Position(Behind(t), [], [], false)
    case Met(role, payload) =>
      if role.Columns? then Position(Behind(t), FieldsOf(payload), [], false)
      else if role.Closing? then Position(Behind(t), [], CommandTagOf(payload, []), true)
      else Position(t, [], [], false)
  }

  datatype Fetched = Fetched(ok: bool, row: seq<Datum>, after: Position)

  /** `fetch_row`. */
  function Fetch(c: Position): (f: Fetched)
    ensures f.ok ==> |f.after.rest| < |c.rest| && f.after.done == c.done
    ensures |f.after.rest| < |c.rest| || (|f.after.rest| == |c.rest| && f.after.done == c.done)
  {
    if c.done || c.rest == [] then Fetched(false, [], c)
    else
      var t := Skip(c.rest, Row);
      FetchAt(c, Meet(t), t, Behind(t))
  }

  /** What is fetched where `met` stands in front of the bytes `t`. */
  function FetchAt(c: Position, met: Met, t: bytes, behind: bytes): Fetched {
    match met
    case Nothing => Fetched(false, [], c.(rest := t))
    case Broken => Fetched(false, [], c)
    case Met(role, payload) =>
      if role.Data? then
        (match RowOf(payload, |c.fields|)
         case None => Fetched(false, [], c)
         case Some(row) => Fetched(true, row, c.(rest := behind)))
      else if role.Copied? then Fetched(true, [Value(payload)], c.(rest := behind))
      else if role.Closing? then
        Fetched(false, [], c.(rest := behind, tag := CommandTagOf(payload, c.tag), done := true))
      else Fetched(false, [], c.(rest := behind, done := true))
  }

  datatype Moved = Moved(ok: bool, after: Position)

  /** The second loop of `next_result_set`, from the bytes `s`: to the next frame
      that can open a set. */
  function Seek(c: Position, s: bytes): (m: Moved)
    ensures m.ok ==> |m.after.rest| < |s| || (|m.after.rest| == |s| && !m.after.done)
  {
    var t := Skip(s, NextSet);
    match Meet(t)
    case Nothing => Moved(false, c.(rest := t))
    case Broken => Moved(false, c)
    case Met(role, _) =>
      if role.Idle? then Moved(false, c.(rest := Behind(t)))
      else
        SkipNone(t, Header);
        Moved(true, Metadata(t))
  }

  /** Its first loop: to the completion of the current set. */
  function SeekEnd(c: Position, s: bytes): (m: Moved)
    ensures m.ok ==> |m.after.rest| < |s|
  {
    var t := Skip(s, End);
    match Meet(t)
    case Nothing =>
      SkipNone(t, NextSet);
      Seek(c, t)
    case Broken => Moved(false, c)
    case Met(role, payload) =>
      if role.Closing? then Seek(c.(tag := CommandTagOf(payload, c.tag), done := true), Behind(t))
      else Moved(false, c.(rest := Behind(t), done := true))
  }

  lemma SkipsOver(s: bytes, aim: Aim)
    requires Meet(s).Met? && aim.Passes(Meet(s).role)
    ensures Skip(s, aim) == Skip(Behind(s), aim)
  {
  }

  lemma SkipNone(s: bytes, aim: Aim)
    requires !(Meet(s).Met? && aim.Passes(Meet(s).role))
    ensures Skip(s, aim) == s
  {
  }

  /** `next_result_set`.  Moving on makes the unread bytes fewer, or leaves them
      as they are and turns the done flag off. */
  function Next(c: Position): (m: Moved)
    ensures m.ok ==>
              |m.after.rest| < |c.rest| || (|m.after.rest| == |c.rest| && c.done && !m.after.done)
  {
    if c.done then Seek(c, c.rest) else SeekEnd(c, c.rest)
  }

  // ---- reading everything ----

  /** `fetch_all`: every row the cursor still gives, and where it stops. */
  function Rows(c: Position): (r: (seq<seq<Datum>>, Position))
    ensures |r.1.rest| < |c.rest| || (|r.1.rest| == |c.rest| && r.1.done == c.done)
    decreases |c.rest|
  {
    var f := Fetch(c);
    if f.ok then
      var (rows, after) := Rows(f.after);
      ([f.row] + rows, after)
    else ([], f.after)
  }

  lemma RowsStep(read: seq<seq<Datum>>, c: Position)
    ensures var f := Fetch(c);
            if f.ok then
              read + Rows(c).0 == (read + [f.row]) + Rows(f.after).0 && Rows(c).1 == Rows(f.after).1
            else read + Rows(c).0 == read && Rows(c).1 == f.after
  {
    var f := Fetch(c);
    if f.ok {
      var (rows, after) := Rows(f.after);
      assert Rows(c) == ([f.row] + rows, after);
      assert read + ([f.row] + rows) == (read + [f.row]) + rows;
    }
  }

  datatype ResultSet = ResultSet(fields: seq<Field>, rows: seq<seq<Datum>>, tag: bytes)

  /** Draining the current set, `before` being rows already taken from it, and
      then every set after it. */
  function ReadOn(c: Position, before: seq<seq<Datum>>): seq<ResultSet>
    decreases |c.rest|, c.done
  {
    var (rows, d) := Rows(c);
    [ResultSet(d.fields, before + rows, d.tag)] + ReadAfter(d)
  }

  function ReadAfter(d: Position): seq<ResultSet>
    decreases |d.rest|, d.done, 0
  {
    var m := Next(d);
    if m.ok then ReadOn(m.after, []) else []
  }

  /** Everything a cursor opened on `s` yields. */
  function ReadAll(s: bytes): seq<ResultSet> {
    ReadOn(Metadata(s), [])
  }

  // ---- cells as positions ----

  /** Cells of a payload that starts at `at`, as positions in the buffer. */
  function Shifted(cells: seq<Cell>, at: nat): (r: seq<Cell>)
    ensures |r| == |cells|
    ensures forall k | 0 <= k < |cells| ::
              r[k] == if cells[k].isNull then cells[k] else cells[k].(start := at + cells[k].start)
  {
    if cells == [] then []
    else
      [if cells[0].isNull then cells[0] else cells[0].(start := at + cells[0].start)] + Shifted(cells[1..], at)
  }

  lemma {:induction false} ContentsShift(buf: bytes, at: nat, n: nat, cells: seq<Cell>)
    requires at + n <= |buf|
    requires forall k | 0 <= k < |cells| :: cells[k].isNull || cells[k].start + cells[k].length <= n
    ensures Contents(buf, Shifted(cells, at)) == Contents(buf[at..at + n], cells)
    decreases |cells|
  {
    if cells != [] {
      var c, rest := cells[0], cells[1..];
      ContentsShift(buf, at, n, rest);
      if !c.isNull {
        SliceOfSlice(buf, at, at + n, c.start, c.start + c.length);
      }
      var c' := if c.isNull then c else c.(start := at + c.start);
      assert Shifted(cells, at) == [c'] + Shifted(rest, at);
      ContentsCons(buf, c', Shifted(rest, at));
    }
  }

  /** Every cell lies inside the payload of the whole frame that starts at `at`. */
  ghost predicate InFrame(buf: bytes, at: nat, row: seq<Cell>)
    requires at <= |buf|
  {
    && Scan(buf[at..]).Complete?
    && forall k | 0 <= k < |row| ::
         row[k].isNull || at + 5 <= row[k].start <= row[k].start + row[k].length <= at + Scan(buf[at..]).Size()
  }

  lemma FrameHolds(buf: bytes, at: nat, payload: bytes)
    requires at <= |buf| && Scan(buf[at..]).Complete? && Scan(buf[at..]).frame.payload == payload
    ensures at + 5 + |payload| == at + Scan(buf[at..]).Size() <= |buf|
    ensures buf[at + 5..at + 5 + |payload|] == payload
  {
    ScanAt(buf, at);
  }

  lemma ShiftedInFrame(buf: bytes, at: nat, payload: bytes, columns: nat, row: seq<Cell>)
    requires at <= |buf| && Scan(buf[at..]).Complete? && Scan(buf[at..]).frame.payload == payload
    requires RowCells(payload, columns) == Some(row)
    ensures InFrame(buf, at, Shifted(row, at + 5))
  {
    FrameHolds(buf, at, payload);
  }

  lemma CellsInFrame(buf: bytes, at: nat, payload: bytes, columns: nat, row: seq<Cell>)
    requires at <= |buf| && Scan(buf[at..]).Complete? && Scan(buf[at..]).frame.payload == payload
    requires RowCells(payload, columns) == Some(row)
    ensures Contents(buf, Shifted(row, at + 5)) == Contents(payload, row) && InFrame(buf, at, Shifted(row, at + 5))
  {
    FrameHolds(buf, at, payload);
    ContentsShift(buf, at + 5, |payload|, row);
    ShiftedInFrame(buf, at, payload, columns, row);
  }

  // ---- the cursor object ----

  /** The frame at `at`, as the frame loops see it. */
  method ReadMet(buf: bytes, at: nat) returns (met: Met, next: nat)
    requires at <= |buf| && WrapFree(buf[at..])
    ensures at <= next <= |buf| && (met.Met? ==> at < next)
    ensures met == Meet(buf[at..]) && buf[next..] == Behind(buf[at..]) && next == at + Scan(buf[at..]).Size()
    ensures WrapFree(buf[next..])
  {
    var scan;
    scan, next := ReadFrame(buf, at);
    met := if scan.Complete? then Met(RoleOf(scan.frame.kind), scan.frame.payload)
           else if scan.Malformed? then Broken
           else Nothing;
  }

  /** The frame loop: reads frames from `from` on until one is not passed over;
      that frame stands at `at` and ends at `next`. */
  method SkipFrames(buf: bytes, from: nat, aim: Aim) returns (met: Met, at: nat, next: nat)
    requires from <= |buf| && WrapFree(buf[from..])
    ensures from <= at <= next <= |buf|
    ensures buf[at..] == Skip(buf[from..], aim) && met == Meet(buf[at..])
    ensures buf[next..] == Behind(buf[at..]) && next == at + Scan(buf[at..]).Size()
    ensures WrapFree(buf[at..]) && WrapFree(buf[next..])
  {
    at := from;
    met, next := ReadMet(buf, at);
    while met.Met? && aim.Passes(met.role)
      invariant from <= at <= next <= |buf| && (met.Met? ==> at < next)
      invariant WrapFree(buf[at..]) && WrapFree(buf[next..])
      invariant met == Meet(buf[at..]) && buf[next..] == Behind(buf[at..]) && next == at + Scan(buf[at..]).Size()
      invariant Skip(buf[at..], aim) == Skip(buf[from..], aim)
      decreases |buf| - at
    {
      SkipsOver(buf[at..], aim);
      at := next;
      met, next := ReadMet(buf, at);
    }
    SkipNone(buf[at..], aim);
  }

  class ResultCursor {
    const buf: bytes
    var cursor: nat
    var fields: seq<Field>
    var tag: bytes
    var done: bool

    ghost predicate Valid()
      reads this
    {
      cursor <= |buf| && WrapFree(buf[cursor..])
    }

    ghost function At(): Position
      requires Valid()
      reads this
    {
      Position(buf[cursor..], fields, tag, done)
    }

    /** Opens on a finished response's bytes. */
    constructor (bs: bytes)
      requires WrapFree(bs)
      ensures Valid() && buf == bs && At() == Metadata(bs)
    {
      buf := bs;
      cursor, fields, tag, done := 0, [], [], false;
      new;
      assert buf[0..] == bs;
      ParseMetadata();
    }

    method ParseMetadata()
      requires Valid()
      modifies this
      ensures Valid() && At() == Metadata(old(buf[cursor..]))
    {
      fields, tag, done := [], [], false;
      var met, at, next := SkipFrames(buf, cursor, Header);
      match met {
        case Nothing => cursor := next;
        case Broken => cursor := next;
        case Met(role, payload) =>
          if role.Columns? {
            fields := ParseRowDescription(payload, fields);
            cursor := next;
          } else if role.Closing? {
            tag := CommandTagOf(payload, tag);
            done := true;
            cursor := next;
          } else {
            cursor := at;
          }
      }
    }

    /** One row: its cells are positions in the buffer, inside the payload of
        the frame that starts at `at` and ends at the new cursor. */
    method FetchRow() returns (ok: bool, row: seq<Cell>, ghost at: nat)
      requires Valid()
      modifies this
      ensures Valid()
      ensures var f := Fetch(old(At())); At() == f.after && ok == f.ok && (ok ==> Contents(buf, row) == f.row)
      ensures ok ==> old(cursor) <= at <= |buf| && InFrame(buf, at, row) && cursor == at + Scan(buf[at..]).Size()
    {
      ok, row, at := false, [], 0;
      if done || cursor >= |buf| {
        return;
      }
      var met, from, next := SkipFrames(buf, cursor, Row);
      at := from;
      ok, row := TakeFrame(met, from, next);
    }

    /** The frame at `at`, if there is one: a row, or the end of the set. */
    method TakeFrame(met: Met, at: nat, next: nat) returns (ok: bool, row: seq<Cell>)
      requires Valid() && at <= next <= |buf| && WrapFree(buf[next..])
      requires met == Meet(buf[at..]) && next == at + Scan(buf[at..]).Size()
      modifies this
      ensures Valid()
      ensures var f := FetchAt(old(At()), met, buf[at..], buf[next..]);
              At() == f.after && ok == f.ok && (ok ==> Contents(buf, row) == f.row)
      ensures ok ==> InFrame(buf, at, row) && cursor == next
    {
      ok, row := false, [];
      match met {
        case Nothing => cursor := next;
        case Broken =>
        case Met(role, payload) =>
          if role.Data? || role.Copied? {
            ok, row := RowAt(at, role, payload);
            if ok {
              cursor := next;
            }
          } else {
            if role.Closing? {
              tag := CommandTagOf(payload, tag);
            }
            done := true;
            cursor := next;
          }
      }
    }

    /** The cells of the DataRow or CopyData frame at `at`. */
    method RowAt(at: nat, role: Role, payload: bytes) returns (ok: bool, row: seq<Cell>)
      requires at <= |buf| && Scan(buf[at..]).Complete? && Scan(buf[at..]).frame.payload == payload
      requires role.Data? || role.Copied?
      ensures ok <==> role.Copied? || RowOf(payload, |fields|).Some?
      ensures ok ==> InFrame(buf, at, row)
      ensures ok ==> Contents(buf, row) == if role.Copied? then [Value(payload)] else RowOf(payload, |fields|).value
    {
      if role.Data? {
        ok, row := ReadCells(at, payload);
      } else {
        ok, row := true, [CopyCell(at, payload)];
      }
    }

    /** The one cell of the CopyData frame at `at`. */
    function CopyCell(at: nat, payload: bytes): (cell: Cell)
      requires at <= |buf| && Scan(buf[at..]).Complete? && Scan(buf[at..]).frame.payload == payload
      ensures Contents(buf, [cell]) == [Value(payload)] && InFrame(buf, at, [cell])
    {
      ScanAt(buf, at);
      Cell(at + 5, |payload|, false, None)
    }

    /** The cells of the DataRow frame at `at`. */
    method ReadCells(at: nat, payload: bytes) returns (ok: bool, row: seq<Cell>)
      requires at <= |buf| && Scan(buf[at..]).Complete? && Scan(buf[at..]).frame.payload == payload
      ensures ok <==> RowOf(payload, |fields|).Some?
      ensures ok ==> Contents(buf, row) == RowOf(payload, |fields|).value && InFrame(buf, at, row)
    {
      ok, row := ParseDataRow(payload, |fields|);
      if ok {
        CellsInFrame(buf, at, payload, |fields|, row);
        row := Shifted(row, at + 5);
      }
    }

    method FetchAll() returns (rows: seq<seq<Cell>>)
      requires Valid()
      modifies this
      ensures Valid() && (AllContents(buf, rows), At()) == Rows(old(At()))
    {
      rows := [];
      ghost var c, read := At(), [];
      ghost var p := c;
      assert [] + Rows(c).0 == Rows(c).0;
      var ok := true;
      while ok
        invariant Valid() && AllContents(buf, rows) == read && p == At()
        invariant Rows(c) == if ok then (read + Rows(p).0, Rows(p).1) else (read, p)
        decreases ok, |p.rest|
      {
        var row;
        ghost var at;
        RowsStep(read, p);
        ok, row, at := FetchRow();
        p := At();
        if ok {
          AllContentsMore(buf, rows, row);
          rows, read := rows + [row], read + [Contents(buf, row)];
        }
      }
    }

    /** The first loop of `next_result_set`: `over` when the move ends inside the
        current set. */
    method FinishSet() returns (over: bool, offset: nat)
      requires Valid() && !done
      modifies this
      ensures Valid() && cursor <= offset <= |buf| && WrapFree(buf[offset..])
      ensures SeekEnd(old(At()), old(buf[cursor..])) == if over then Moved(false, At()) else Seek(At(), buf[offset..])
    {
      var met, at, next := SkipFrames(buf, cursor, End);
      match met {
        case Nothing => return false, at;
        case Broken => return true, at;
        case Met(role, payload) =>
          done := true;
          if role.Closing? {
            tag := CommandTagOf(payload, tag);
            return false, next;
          }
          cursor := next;
          return true, next;
      }
    }

    /** The second loop. */
    method SeekSet(from: nat) returns (ok: bool)
      requires Valid() && cursor <= from <= |buf| && WrapFree(buf[from..])
      modifies this
      ensures Valid() && Moved(ok, At()) == Seek(old(At()), buf[from..])
    {
      var met, at, next := SkipFrames(buf, from, NextSet);
      match met {
        case Nothing =>
          cursor := next;
          return false;
        case Broken => return false;
        case Met(role, payload) =>
          if role.Idle? {
            cursor := next;
            return false;
          }
          cursor := at;
          ParseMetadata();
          return true;
      }
    }

    method NextResultSet() returns (ok: bool)
      requires Valid()
      modifies this
      ensures Valid() && Moved(ok, At()) == Next(old(At()))
    {
      var over, offset := false, cursor;
      if !done {
        over, offset := FinishSet();
      }
      if over {
        return false;
      }
      ok := SeekSet(offset);
    }
  }

  function AllContents(buf: bytes, rows: seq<seq<Cell>>): seq<seq<Datum>> {
    if rows == [] then [] else [Contents(buf, rows[0])] + AllContents(buf, rows[1..])
  }

  lemma {:induction false} AllContentsMore(buf: bytes, rows: seq<seq<Cell>>, row: seq<Cell>)
    ensures AllContents(buf, rows + [row]) == AllContents(buf, rows) + [Contents(buf, row)]
  {
    if rows == [] {
      assert [] + [row] == [row];
    } else {
      AllContentsMore(buf, rows[1..], row);
      assert (rows + [row])[1..] == rows[1..] + [row];
    }
  }

  /** One turn of the client loop: the current set is drained, and the next one
      is there or not. */
  lemma ReadOnStep(sets: seq<ResultSet>, c: Position, d: Position, m: Moved)
    requires d == Rows(c).1 && m == Next(d)
    ensures var next := sets + [ResultSet(d.fields, Rows(c).0, d.tag)];
            sets + ReadOn(c, []) == if m.ok then next + ReadOn(m.after, []) else next
  {
    var rows := Rows(c).0;
    var current := ResultSet(d.fields, rows, d.tag);
    assert [] + rows == rows;
    assert ReadOn(c, []) == [current] + ReadAfter(d);
    Assoc(sets, [current], ReadAfter(d));
  }

  /** One turn: the set behind the ones `before`, and whether there is another, for
      which there are then fewer bytes, or as many and the done flag is off again. */
  method ReadSet(cursor: ResultCursor, before: seq<ResultSet>) returns (sets: seq<ResultSet>, more: bool)
    requires cursor.Valid()
    modifies cursor
    ensures cursor.Valid()
    ensures before + ReadOn(old(cursor.At()), []) == if more then sets + ReadOn(cursor.At(), []) else sets
    ensures var c, c' := old(cursor.At()), cursor.At();
            more ==> |c'.rest| < |c.rest| || (|c'.rest| == |c.rest| && c.done && !c'.done)
  {
    ghost var c := cursor.At();
    var rows := cursor.FetchAll();
    ghost var d := cursor.At();
    ReadOnStep(before, c, d, Next(d));
    sets := before + [ResultSet(cursor.fields, AllContents(cursor.buf, rows), cursor.tag)];
    more := cursor.NextResultSet();
  }

  /** The client loop, on any bytes: drain the current set, move on, until there
      is no more.  It ends, and yields what `ReadAll` says. */
  method ReadEverything(bs: bytes) returns (sets: seq<ResultSet>)
    requires WrapFree(bs)
    ensures sets == ReadAll(bs)
  {
    var cursor := new ResultCursor(bs);
    sets := [];
    var more := true;
    ghost var c := cursor.At();
    ghost var all := ReadOn(c, []);
    assert [] + all == all;
    while more
      invariant cursor.Valid() && fresh(cursor) && c == cursor.At()
      invariant all == if more then sets + ReadOn(c, []) else sets
      decreases more, |c.rest|, c.done
    {
      sets, more := ReadSet(cursor, sets);
      c := cursor.At();
    }
  }
}
