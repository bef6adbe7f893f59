/** Result sets as a server writes them, and their way through the response and
    the cursor. */
module Delivery {
  import opened Wrappers
  import opened Wire
  import opened Framing
  import opened Parser
  import opened Response
  import opened Cursor
  import opened Moving
  import opened Reading
  import Backend
  import Receiving

  // ---- column lists ----

  function WriteNumbers(f: Field): bytes {
    WriteU32(f.tableOid)
    + (WriteU16(f.columnAttr)
       + (WriteU32(f.typeOid) + (WriteU16(f.typeSize) + (WriteU32(f.typeModifier) + WriteU16(f.format)))))
  }

  function WriteColumns(fs: seq<Field>): bytes {
    if fs == [] then [] else fs[0].name + [0] + (WriteNumbers(fs[0]) + WriteColumns(fs[1..]))
  }

  /** The payload of a RowDescription. */
  function WriteFields(fs: seq<Field>): bytes {
    WriteU16(|fs|) + WriteColumns(fs)
  }

  predicate Fits16(v: int) {
    -TWO_15 <= v < TWO_15
  }

  predicate Fits32(v: int) {
    -TWO_31 <= v < TWO_31
  }

  predicate FieldFits(f: Field) {
    && NulFree(f.name)
    && Fits32(f.tableOid) && Fits16(f.columnAttr) && Fits32(f.typeOid)
    && Fits16(f.typeSize) && Fits32(f.typeModifier) && Fits16(f.format)
  }

  predicate FieldsFit(fs: seq<Field>) {
    |fs| < TWO_15 && forall k | 0 <= k < |fs| :: FieldFits(fs[k])
  }

  lemma NumbersAt(s: bytes, at: nat, f: Field, after: bytes)
    requires at <= |s| && s[at..] == WriteNumbers(f) + after && FieldFits(f)
    ensures at + 18 <= |s| && FieldAt(f.name, s, at) == f && s[at + 18..] == after
  {
    var d := WriteU16(f.format) + after;
    var c := WriteU32(f.typeModifier) + d;
    var b := WriteU16(f.typeSize) + c;
    var a := WriteU32(f.typeOid) + b;
    NumbersApart(f, after);
    Signed32At(s, at, f.tableOid, WriteU16(f.columnAttr) + a);
    Signed16At(s, at + 4, f.columnAttr, a);
    Signed32At(s, at + 6, f.typeOid, b);
    Signed16At(s, at + 10, f.typeSize, c);
    Signed32At(s, at + 12, f.typeModifier, d);
    Signed16At(s, at + 16, f.format, after);
  }

  lemma NumbersApart(f: Field, after: bytes)
    ensures WriteNumbers(f) + after
         == WriteU32(f.tableOid)
            + (WriteU16(f.columnAttr)
               + (WriteU32(f.typeOid)
                  + (WriteU16(f.typeSize) + (WriteU32(f.typeModifier) + (WriteU16(f.format) + after)))))
  {
  }

  lemma ColumnsApart(fs: seq<Field>, after: bytes)
    requires fs != []
    ensures WriteColumns(fs) + after == fs[0].name + [0] + (WriteNumbers(fs[0]) + (WriteColumns(fs[1..]) + after))
  {
    Assoc(WriteNumbers(fs[0]), WriteColumns(fs[1..]), after);
    Assoc(fs[0].name + [0], WriteNumbers(fs[0]) + WriteColumns(fs[1..]), after);
  }

  /** Where the numbers of the first written column stand. */
  lemma ColumnAt(data: bytes, p: nat, fs: seq<Field>, after: bytes) returns (q: nat)
    requires p <= |data| && data[p..] == WriteColumns(fs) + after && fs != [] && FieldFits(fs[0])
    ensures ReadCString(data, p) == CString(fs[0].name, q) && q + 18 <= |data|
    ensures FieldAt(fs[0].name, data, q) == fs[0] && data[q + 18..] == WriteColumns(fs[1..]) + after
  {
    var f, rest := fs[0], WriteColumns(fs[1..]) + after;
    ColumnsApart(fs, after);
    StringAt(data, p, f.name, WriteNumbers(f) + rest);
    q := p + |f.name| + 1;
    NumbersAt(data, q, f, rest);
  }

  /** The columns stand one behind the other from `p` on. */
  predicate Chain(data: bytes, p: nat, fs: seq<Field>)
    requires p <= |data|
    decreases |fs|
  {
    fs == [] ||
    var name := ReadCString(data, p);
    && name.CString? && name.text == fs[0].name && name.next + 18 <= |data|
    && FieldAt(name.text, data, name.next) == fs[0] && Chain(data, name.next + 18, fs[1..])
  }

  lemma {:induction false} ColumnsStand(data: bytes, p: nat, fs: seq<Field>, after: bytes)
    requires p <= |data| && data[p..] == WriteColumns(fs) + after
    requires forall k | 0 <= k < |fs| :: FieldFits(fs[k])
    ensures Chain(data, p, fs)
    decreases |fs|
  {
    if fs != [] {
      var next := NextStands(data, p, fs, after);
      ColumnsStand(data, next, fs[1..], after);
    }
  }

  lemma NextStands(data: bytes, p: nat, fs: seq<Field>, after: bytes) returns (next: nat)
    requires p <= |data| && data[p..] == WriteColumns(fs) + after && fs != [] && FieldFits(fs[0])
    ensures next <= |data| && data[next..] == WriteColumns(fs[1..]) + after
    ensures Chain(data, next, fs[1..]) ==> Chain(data, p, fs)
  {
    var q := ColumnAt(data, p, fs, after);
    next := q + 18;
    ChainStep(data, p, fs, q);
  }

  lemma ChainStep(data: bytes, p: nat, fs: seq<Field>, q: nat)
    requires fs != [] && p <= |data| && ReadCString(data, p) == CString(fs[0].name, q) && q + 18 <= |data|
    requires FieldAt(fs[0].name, data, q) == fs[0]
    ensures Chain(data, q + 18, fs[1..]) ==> Chain(data, p, fs)
  {
  }

  lemma {:induction false} ChainIsRead(data: bytes, p: nat, n: nat, fs: seq<Field>)
    requires p <= |data| && Chain(data, p, fs) && n == |fs|
    ensures FieldList(data, p, n) == Some(fs)
    decreases n
  {
    if n > 0 {
      ChainIsRead(data, ReadCString(data, p).next + 18, n - 1, fs[1..]);
      assert [fs[0]] + fs[1..] == fs;
    }
  }

  /** A column list is read as it was written. */
  lemma {:induction false} DescriptionIsRead(fs: seq<Field>, trailing: bytes)
    requires FieldsFit(fs)
    ensures FieldsOf(WriteFields(fs) + trailing) == fs
  {
    var s := WriteFields(fs) + trailing;
    assert s == WriteU16(|fs|) + (WriteColumns(fs) + trailing);
    assert s[0..] == s;
    Signed16At(s, 0, |fs|, WriteColumns(fs) + trailing);
    ColumnsStand(s, 2, fs, trailing);
    ChainIsRead(s, 2, |fs|, fs);
  }

  /** A cut behind `front`. */
  lemma CutBehind(cut: bytes, front: bytes, back: bytes)
    requires cut < front + back && |cut| >= |front|
    ensures cut == front + cut[|front|..] && cut[|front|..] < back
  {
    assert cut[|front|..] == back[..|cut| - |front|];
  }

  lemma CutColumn(data: bytes, p: nat, fs: seq<Field>)
    requires p <= |data| && fs != [] && FieldFits(fs[0]) && data[p..] < WriteColumns(fs)
    ensures var name := ReadCString(data, p);
            name.CString? && |data| - name.next >= 18 ==> data[name.next + 18..] < WriteColumns(fs[1..])
  {
    var f, cut := fs[0], data[p..];
    if |cut| <= |f.name| {
      assert cut == WriteColumns(fs)[..|cut|] == f.name[..|cut|];
      NoNulIff(data, p);
    } else {
      CutBehind(cut, f.name + [0], WriteNumbers(f) + WriteColumns(fs[1..]));
      StringAt(data, p, f.name, cut[|f.name| + 1..]);
      CutNumbers(data, p + |f.name| + 1, f, WriteColumns(fs[1..]));
    }
  }

  lemma CutNumbers(data: bytes, at: nat, f: Field, rest: bytes)
    requires at <= |data| && data[at..] < WriteNumbers(f) + rest
    ensures |data| - at >= 18 ==> data[at + 18..] < rest
  {
    if |data| - at >= 18 {
      CutBehind(data[at..], WriteNumbers(f), rest);
      assert data[at + 18..] == data[at..][18..];
    }
  }

  /** One of `n` columns from `p` on is not whole. */
  predicate Broken(data: bytes, p: nat, n: nat)
    requires p <= |data|
    decreases n
  {
    n > 0 &&
    var name := ReadCString(data, p);
    name.CString? && name.next + 18 <= |data| ==> Broken(data, name.next + 18, n - 1)
  }

  lemma {:induction false} CutIsBroken(data: bytes, p: nat, n: nat, fs: seq<Field>)
    requires p <= |data| && data[p..] < WriteColumns(fs) && n == |fs|
    requires forall k | 0 <= k < |fs| :: FieldFits(fs[k])
    ensures Broken(data, p, n)
    decreases n
  {
    if n == 0 {
      assert false;
    } else {
      CutColumn(data, p, fs);
      var name := ReadCString(data, p);
      if name.CString? && name.next + 18 <= |data| {
        CutIsBroken(data, name.next + 18, n - 1, fs[1..]);
      }
    }
  }

  lemma {:induction false} BrokenIsRejected(data: bytes, p: nat, n: nat)
    requires p <= |data| && Broken(data, p, n)
    ensures FieldList(data, p, n) == None
    decreases n
  {
    var name := ReadCString(data, p);
    if name.CString? && name.next + 18 <= |data| {
      BrokenIsRejected(data, name.next + 18, n - 1);
    }
  }

  /** One that is cut short leaves no columns at all. */
  lemma {:induction false} CutDescription(fs: seq<Field>, cut: bytes)
    requires FieldsFit(fs) && cut < WriteFields(fs)
    ensures FieldsOf(cut) == []
  {
    if |cut| >= 2 {
      var rest := WriteColumns(fs)[..|cut| - 2];
      assert cut == WriteU16(|fs|) + rest;
      assert cut[0..] == cut;
      Signed16At(cut, 0, |fs|, rest);
      CutIsBroken(cut, 2, |fs|, fs);
      BrokenIsRejected(cut, 2, |fs|);
    }
  }

  // ---- rows ----

  predicate RowFits(row: seq<Datum>) {
    |row| < TWO_15 && forall k | 0 <= k < |row| :: DatumFits(row[k])
  }

  /** A row is read as it was written, unless it has more values than there are
      columns. */
  lemma {:induction false} RowIsReadIff(row: seq<Datum>, trailing: bytes, columns: nat)
    requires RowFits(row)
    ensures RowOf(WriteRow(row) + trailing, columns) == if |row| <= columns then Some(row) else None
  {
    if |row| <= columns {
      RowOfWritten(row, trailing, columns);
    } else {
      var s := WriteRow(row) + trailing;
      assert s == WriteU16(|row|) + (WriteData(row) + trailing);
      assert s[0..] == s;
      Signed16At(s, 0, |row|, WriteData(row) + trailing);
    }
  }

  lemma DatumApart(row: seq<Datum>)
    requires row != []
    ensures var content := if row[0].Null? then [] else row[0].content;
            && |WriteDatum(row[0])| == 4 + |content|
            && WriteData(row) == WriteU32(WrittenLength(row[0])) + (content + WriteData(row[1..]))
  {
    if row[0].Value? {
      Assoc(WriteU32(|row[0].content|), row[0].content, WriteData(row[1..]));
    } else {
      assert [] + WriteData(row[1..]) == WriteData(row[1..]);
    }
  }

  lemma CutCell(data: bytes, p: nat, row: seq<Datum>)
    requires p + 4 <= |data| && row != [] && DatumFits(row[0]) && data[p..] < WriteData(row)
    ensures Signed32(ReadU32(data, p)) == WrittenLength(row[0])
    ensures var q := p + |WriteDatum(row[0])|; q <= |data| ==> data[q..] < WriteData(row[1..])
  {
    DatumApart(row);
    CutValue(data, p, WrittenLength(row[0]), if row[0].Null? then [] else row[0].content, WriteData(row[1..]));
  }

  lemma CutValue(data: bytes, p: nat, len: int, content: bytes, rest: bytes)
    requires p + 4 <= |data| && -TWO_31 <= len < TWO_31 && data[p..] < WriteU32(len) + (content + rest)
    ensures Signed32(ReadU32(data, p)) == len
    ensures p + 4 + |content| <= |data| ==> data[p + 4 + |content|..] < rest
  {
    CutBehind(data[p..], WriteU32(len), content + rest);
    var tail := data[p..][4..];
    Signed32At(data, p, len, tail);
    if |tail| >= |content| {
      CutBehind(tail, content, rest);
      assert data[p + 4 + |content|..] == tail[|content|..];
    }
  }

  lemma {:induction false} CutCells(data: bytes, p: nat, row: seq<Datum>, i: nat, n: nat)
    requires p <= |data| && data[p..] < WriteData(row) && n == i + |row|
    requires forall k | 0 <= k < |row| :: DatumFits(row[k])
    ensures CellList(data, p, i, n) == None
    decreases |row|
  {
    if row == [] {
      assert false;
    } else if p + 4 <= |data| {
      CutCell(data, p, row);
      var q := p + |WriteDatum(row[0])|;
      if q <= |data| {
        CutCells(data, q, row[1..], i + 1, n);
      }
      NoCells(data, p, q, row[0], i, n);
    }
  }

  lemma NoCells(data: bytes, p: nat, q: nat, d: Datum, i: nat, n: nat)
    requires p + 4 <= |data| && i < n && Signed32(ReadU32(data, p)) == WrittenLength(d)
    requires q == p + |WriteDatum(d)| && (q <= |data| ==> CellList(data, q, i + 1, n) == None)
    ensures CellList(data, p, i, n) == None
  {
  }

  /** One that is cut short is rejected. */
  lemma {:induction false} CutRow(row: seq<Datum>, cut: bytes, columns: nat)
    requires RowFits(row) && cut < WriteRow(row)
    ensures RowOf(cut, columns) == None
  {
    if |cut| >= 2 {
      var rest := WriteData(row)[..|cut| - 2];
      assert cut == WriteU16(|row|) + rest;
      assert cut[0..] == cut;
      Signed16At(cut, 0, |row|, rest);
      CutCells(cut, 2, row, 0, |row|);
    }
  }

  // ---- command tags ----

  lemma TagIsTaken(tag: bytes, trailing: bytes, before: bytes)
    requires NulFree(tag)
    ensures CommandTagOf(tag + [0] + trailing, before) == tag && CommandTagOf(tag, before) == before
  {
    var s := tag + [0] + trailing;
    assert s[0..] == s;
    StringAt(s, 0, tag, trailing);
    assert tag[0..] == tag;
    NoNulIff(tag, 0);
  }

  // ---- result sets ----

  predicate SetFits(result: ResultSet) {
    && FieldsFit(result.fields) && NulFree(result.tag)
    && forall k | 0 <= k < |result.rows| :: RowFits(result.rows[k]) && |result.rows[k]| <= |result.fields|
  }

  function RowFrames(rows: seq<seq<Datum>>): seq<Frame> {
    if rows == [] then [] else [Frame('D' as int, WriteRow(rows[0]))] + RowFrames(rows[1..])
  }

  /** A result set as a server sends it: the columns, if it has any, the rows, and
      the command tag. */
  function SetFrames(result: ResultSet): seq<Frame> {
    (if result.fields == [] && result.rows == [] then [] else [Frame('T' as int, WriteFields(result.fields))])
    + (RowFrames(result.rows) + [Frame('C' as int, result.tag + [0])])
  }

  function SetsFrames(sets: seq<ResultSet>): seq<Frame> {
    if sets == [] then [] else SetFrames(sets[0]) + SetsFrames(sets[1..])
  }

  lemma OnePassMore(p: Progress, f: Frame, more: seq<Frame>)
    ensures OnePass(p, [f] + more, false) == OnePass(Take(p, f, false), more, false)
  {
    assert ([f] + more)[1..] == more;
  }

  lemma RowIsTaken(p: Progress, row: seq<Datum>)
    requires p.phase.Open? && RowFits(row) && |row| <= |p.cur.fields|
    ensures Take(p, Frame('D' as int, WriteRow(row)), false) == p.WithRow(row)
  {
    RowIsReadIff(row, [], |p.cur.fields|);
    assert WriteRow(row) + [] == WriteRow(row);
  }

  function WithRows(p: Progress, rows: seq<seq<Datum>>): Progress {
    p.(cur := p.cur.(rows := p.cur.rows + rows))
  }

  lemma RowsOneByOne(p: Progress, rows: seq<seq<Datum>>)
    ensures rows == [] ==> WithRows(p, rows) == p
    ensures rows != [] ==> WithRows(p, rows) == WithRows(p.WithRow(rows[0]), rows[1..])
  {
    if rows == [] {
      assert p.cur.rows + rows == p.cur.rows;
    } else {
      assert p.cur.rows + [rows[0]] + rows[1..] == p.cur.rows + rows;
    }
  }

  lemma {:induction false} RowsAreTaken(p: Progress, rows: seq<seq<Datum>>, more: seq<Frame>)
    requires p.phase.Open?
    requires forall k | 0 <= k < |rows| :: RowFits(rows[k]) && |rows[k]| <= |p.cur.fields|
    ensures OnePass(p, RowFrames(rows) + more, false) == OnePass(WithRows(p, rows), more, false)
    decreases |rows|
  {
    RowsOneByOne(p, rows);
    if rows == [] {
      assert RowFrames(rows) + more == more;
    } else {
      var f, rest := Frame('D' as int, WriteRow(rows[0])), RowFrames(rows[1..]) + more;
      assert RowFrames(rows) + more == [f] + rest;
      OnePassMore(p, f, rest);
      RowIsTaken(p, rows[0]);
      RowsAreTaken(p.WithRow(rows[0]), rows[1..], more);
    }
  }

  lemma TagFrameIsTaken(p: Progress, tag: bytes)
    requires p.phase in {Fresh, Open, Closed} && NulFree(tag)
    ensures var q := p.Opened();
            Take(p, Frame('C' as int, tag + [0]), false) == q.(cur := q.cur.(tag := tag), phase := Closed)
  {
    TagIsTaken(tag, [], p.Opened().cur.tag);
    assert tag + [0] + [] == tag + [0];
  }

  lemma {:induction false} ColumnsAreTaken(p: Progress, fields: seq<Field>)
    requires p.phase in {Fresh, Closed} && FieldsFit(fields)
    ensures Take(p, Frame('T' as int, WriteFields(fields)), false) == p.Opened().(cur := ResultSet(fields, [], []))
  {
    DescriptionIsRead(fields, []);
    assert WriteFields(fields) + [] == WriteFields(fields);
    HeaderIsTaken(p, WriteFields(fields), fields);
  }

  lemma HeaderIsTaken(p: Progress, payload: bytes, fields: seq<Field>)
    requires p.phase in {Fresh, Closed} && FieldsOf(payload) == fields
    ensures Take(p, Frame('T' as int, payload), false) == p.Opened().(cur := ResultSet(fields, [], []))
  {
    assert RoleOf('T' as int) == Columns;
  }

  /** After the frames of a set the one pass has taken it, and nothing else. */
  lemma {:induction false} SetIsTaken(p: Progress, result: ResultSet, more: seq<Frame>)
    requires p == START || p.phase.Closed?
    requires SetFits(result)
    ensures OnePass(p, SetFrames(result) + more, false)
         == OnePass(Progress(p.Opened().sets, result, Closed), more, false)
  {
    var end, rows := Frame('C' as int, result.tag + [0]), RowFrames(result.rows);
    if result.fields == [] && result.rows == [] {
      assert SetFrames(result) + more == [end] + more;
      OnePassMore(p, end, more);
      TagFrameIsTaken(p, result.tag);
    } else {
      var head := Frame('T' as int, WriteFields(result.fields));
      var q := p.Opened().(cur := ResultSet(result.fields, [], []));
      assert SetFrames(result) + more == [head] + (rows + ([end] + more));
      OnePassMore(p, head, rows + ([end] + more));
      ColumnsAreTaken(p, result.fields);
      BodyIsTaken(q, result, more);
    }
  }

  lemma {:induction false} BodyIsTaken(q: Progress, result: ResultSet, more: seq<Frame>)
    requires q.phase.Open? && q.cur == ResultSet(result.fields, [], []) && SetFits(result)
    ensures var end := Frame('C' as int, result.tag + [0]);
            OnePass(q, RowFrames(result.rows) + ([end] + more), false)
            == OnePass(Progress(q.sets, result, Closed), more, false)
  {
    var end := Frame('C' as int, result.tag + [0]);
    RowsAreTaken(q, result.rows, [end] + more);
    var full := q.(cur := ResultSet(result.fields, result.rows, []));
    assert WithRows(q, result.rows) == full by {
      assert [] + result.rows == result.rows;
    }
    OnePassMore(full, end, more);
    TagFrameIsTaken(full, result.tag);
  }

  lemma {:induction false} SetsAreTaken(p: Progress, sets: seq<ResultSet>)
    requires p.phase.Closed? && forall k | 0 <= k < |sets| :: SetFits(sets[k])
    ensures OnePass(p, SetsFrames(sets), false).Outcome() == p.Outcome() + sets
    decreases |sets|
  {
    if sets == [] {
      assert p.Outcome() + [] == p.Outcome();
    } else {
      var q := Progress(p.Outcome(), sets[0], Closed);
      SetIsTaken(p, sets[0], SetsFrames(sets[1..]));
      SetsAreTaken(q, sets[1..]);
      OutcomeGrows(p, q, sets);
    }
  }

  lemma {:induction false} OutcomeGrows(p: Progress, q: Progress, sets: seq<ResultSet>)
    requires sets != [] && q.sets == p.Outcome() && q.cur == sets[0]
    ensures q.Outcome() + sets[1..] == p.Outcome() + sets
  {
    assert p.Outcome() + [sets[0]] + sets[1..] == p.Outcome() + sets;
  }

  lemma {:induction false} SetsAreTheOutcome(sets: seq<ResultSet>)
    requires sets != [] && forall k | 0 <= k < |sets| :: SetFits(sets[k])
    ensures OnePass(START, SetsFrames(sets), false).Outcome() == sets
  {
    var first := Progress([], sets[0], Closed);
    SetIsTaken(START, sets[0], SetsFrames(sets[1..]));
    SetsAreTaken(first, sets[1..]);
    FirstOutcome(first, sets);
  }

  lemma {:induction false} FirstOutcome(first: Progress, sets: seq<ResultSet>)
    requires sets != [] && first.sets == [] && first.cur == sets[0]
    ensures first.Outcome() + sets[1..] == sets
  {
  }

  // ---- through the cursor ----

  /** The frames that belong to result sets. */
  function Core(fs: seq<Frame>): seq<Frame> {
    if fs == [] then []
    else if fs[0].kind in Text("TDdC") then [fs[0]] + Core(fs[1..])
    else Core(fs[1..])
  }

  lemma CoreLetters(kind: byte)
    ensures kind in Text("TDdC")
            <==> kind == 'T' as int || kind == 'D' as int || kind == 'd' as int || kind == 'C' as int
  {
    var kinds := Text("TDdC");
    assert |kinds| == 4 && kinds[0] == 'T' as int && kinds[1] == 'D' as int;
    assert kinds[2] == 'd' as int && kinds[3] == 'C' as int;
  }

  lemma AsideIsNotTaken(p: Progress, f: Frame, ideal: bool)
    requires f.kind !in Text("TDdC")
    ensures Take(p, f, ideal) == p
  {
    CoreLetters(f.kind);
    assert RoleOf(f.kind) in {Idle, Aside};
  }

  lemma {:induction false} CoreIsEnough(fs: seq<Frame>, p: Progress, ideal: bool)
    ensures OnePass(p, fs, ideal) == OnePass(p, Core(fs), ideal)
    decreases |fs|
  {
    if fs != [] {
      CoreIsEnough(fs[1..], Take(p, fs[0], ideal), ideal);
      if fs[0].kind in Text("TDdC") {
        assert Core(fs)[1..] == Core(fs[1..]);
      } else {
        AsideIsNotTaken(p, fs[0], ideal);
      }
    }
  }

  /** Whatever frames of other kinds stand between them, the cursor gives the
      result sets back that a server wrote: columns, rows and tags. */
  lemma {:induction false} SetsAreDelivered(fs: seq<Frame>, sets: seq<ResultSet>)
    requires Clean(fs) && Core(fs) == SetsFrames(sets)
    requires sets != [] && forall k | 0 <= k < |sets| :: SetFits(sets[k])
    ensures ReadAll(EncodeAll(fs)) == sets
  {
    CleanIsHeld(fs);
    CursorRefinesOnePass(EncodeAll(fs));
    CoreIsEnough(fs, START, false);
    SetsAreTheOutcome(sets);
  }

  // ---- through response and cursor ----

  predicate OfSets(fs: seq<Frame>) {
    forall k | 0 <= k < |fs| :: fs[k].kind in Text("TDdC")
  }

  lemma {:induction false} FramesAreOfSets(sets: seq<ResultSet>)
    ensures OfSets(SetsFrames(sets))
    decreases |sets|
  {
    if sets != [] {
      FramesAreOfSets(sets[1..]);
      RowFramesAreRows(sets[0].rows);
      CoreLetters('T' as int);
      CoreLetters('D' as int);
      CoreLetters('C' as int);
    }
  }

  lemma {:induction false} RowFramesAreRows(rows: seq<seq<Datum>>)
    ensures forall k | 0 <= k < |RowFrames(rows)| :: RowFrames(rows)[k].kind == 'D' as int
    decreases |rows|
  {
    if rows != [] {
      RowFramesAreRows(rows[1..]);
    }
  }

  lemma {:induction false} CoreOfSets(fs: seq<Frame>, state: byte)
    requires OfSets(fs)
    ensures Core(fs + [Frame('Z' as int, [state])]) == fs
    decreases |fs|
  {
    if fs == [] {
      CoreLetters('Z' as int);
      assert [] + [Frame('Z' as int, [state])] == [Frame('Z' as int, [state])];
    } else {
      CoreOfSets(fs[1..], state);
      assert (fs + [Frame('Z' as int, [state])])[1..] == fs[1..] + [Frame('Z' as int, [state])];
    }
  }

  lemma {:induction false} SetsEndInReady(fs: seq<Frame>, state: byte)
    requires OfSets(fs)
    ensures IdleLast(fs + [Frame('Z' as int, [state])])
    decreases |fs|
  {
    var all := fs + [Frame('Z' as int, [state])];
    if fs != [] {
      CoreLetters(fs[0].kind);
      SetsEndInReady(fs[1..], state);
      assert all[1..] == fs[1..] + [Frame('Z' as int, [state])];
    }
  }

  lemma SetFrameIsPassed(auth: AuthOracle, r: Reply, f: Frame)
    requires f.kind in Text("TDdC")
    ensures StepOf(auth)(r, f) == (r, false)
  {
    CoreLetters(f.kind);
    var letters := Text("RENSKvZAGHW");
    assert f.kind !in letters;
    Backend.SaidIsHeard(auth, r, Backend.Other(f.kind, f.payload));
  }

  lemma {:induction false} RunOverSets(auth: AuthOracle, r: Reply, fs: seq<Frame>, state: byte)
    requires OfSets(fs)
    ensures Run(StepOf(auth), r, fs + [Frame('Z' as int, [state])])
         == (r.(tx := state, ready := state in Text("ITE")), |fs| + 1, true)
    decreases |fs|
  {
    var all := fs + [Frame('Z' as int, [state])];
    if fs == [] {
      Backend.SaidIsHeard(auth, r, Backend.IsReady(state));
    } else {
      SetFrameIsPassed(auth, r, fs[0]);
      assert all[1..] == fs[1..] + [Frame('Z' as int, [state])];
      RunOverSets(auth, r, fs[1..], state);
    }
  }

  lemma {:induction false} SetsAreSeen(auth: AuthOracle, r: Reply, sets: seq<ResultSet>, state: byte,
                                       chunks: seq<bytes>)
    requires AllFit(SetsFrames(sets)) && Concat(chunks) == EncodeAll(SetsFrames(sets) + [Frame('Z' as int, [state])])
    ensures var s := Concat(chunks);
            var answered := r.(tx := state, ready := state in Text("ITE"));
            FeedAll(StepOf(auth), Receiver(r, [], []), chunks) == Fed(Receiver(answered, s, []), |s|, Finished)
  {
    var all := SetsFrames(sets) + [Frame('Z' as int, [state])];
    FramesAreOfSets(sets);
    RunOverSets(auth, r, SetsFrames(sets), state);
    assert all[..|all|] == all;
    WalkEncodeAll(all, []);
    assert EncodeAll(all) + [] == EncodeAll(all);
    Receiving.FinishedMeaning(StepOf(auth), r, chunks);
  }

  lemma {:induction false} SetsAreRead(sets: seq<ResultSet>, state: byte)
    requires sets != [] && forall k | 0 <= k < |sets| :: SetFits(sets[k])
    requires AllFit(SetsFrames(sets))
    ensures ReadAll(EncodeAll(SetsFrames(sets) + [Frame('Z' as int, [state])])) == sets
  {
    FramesAreOfSets(sets);
    SetsEndInReady(SetsFrames(sets), state);
    CoreOfSets(SetsFrames(sets), state);
    SetsAreDelivered(SetsFrames(sets) + [Frame('Z' as int, [state])], sets);
  }

  /** From a server to the caller: whatever result sets it sends and whatever state
      it reports behind them, in whatever chunks the bytes arrive, the response
      ends there with that state, and the cursor opened on it gives exactly those
      sets. */
  lemma {:induction false} QueryIsAnswered(auth: AuthOracle, r: Reply, sets: seq<ResultSet>, state: byte,
                                           chunks: seq<bytes>)
    requires sets != [] && forall k | 0 <= k < |sets| :: SetFits(sets[k])
    requires AllFit(SetsFrames(sets)) && Concat(chunks) == EncodeAll(SetsFrames(sets) + [Frame('Z' as int, [state])])
    ensures var s := Concat(chunks);
            var answered := r.(tx := state, ready := state in Text("ITE"));
            && FeedAll(StepOf(auth), Receiver(r, [], []), chunks) == Fed(Receiver(answered, s, []), |s|, Finished)
            && ReadAll(s) == sets
  {
    SetsAreSeen(auth, r, sets, state, chunks);
    SetsAreRead(sets, state);
  }
}
