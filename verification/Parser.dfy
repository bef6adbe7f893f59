/** Classification of backend messages and the readers of their payloads. */
module Parser {
  import opened Wrappers
  import opened Wire

  datatype Event =
    | Auth | Error | ParameterStatus | BackendKey | NegotiateProtocol | Ready | Notification
    | RowDescription | DataRow | CommandComplete | CopyIn | CopyOut | CopyData | CopyDone | CopyFail
    | Notice | EmptyQuery | ParseComplete | BindComplete | CloseComplete | ParameterDescription
    | NoData | Unknown

  function EventOf(kind: byte): Event {
    var c := kind as char;
    if c == 'R' then Auth
    else if c == 'E' then Error
    else if c == 'S' then ParameterStatus
    else if c == 'K' then BackendKey
    else if c == 'v' then NegotiateProtocol
    else if c == 'Z' then Ready
    else if c == 'A' then Notification
    else if c == 'T' then RowDescription
    else if c == 'D' then DataRow
    else if c == 'C' then CommandComplete
    else if c == 'G' then CopyIn
    else if c == 'H' || c == 'W' then CopyOut
    else if c == 'd' then CopyData
    else if c == 'c' then CopyDone
    else if c == 'f' then CopyFail
    else if c == 'N' then Notice
    else if c == 'I' then EmptyQuery
    else if c == '1' then ParseComplete
    else if c == '2' then BindComplete
    else if c == '3' then CloseComplete
    else if c == 't' then ParameterDescription
    else if c == 'n' then NoData
    else Unknown
  }

  // ---- ErrorResponse and NoticeResponse ----

  datatype ErrorInfo = ErrorInfo(severity: bytes, sqlState: bytes, message: bytes,
                                 detail: bytes, hint: bytes, position: bytes)

  const NO_ERROR := ErrorInfo([], [], [], [], [], [])

  /** One field of the report; 'V' is only a fallback for a missing 'S'. */
  function SetErrorField(e: ErrorInfo, kind: byte, value: bytes): ErrorInfo {
    var c := kind as char;
    if c == 'S' then e.(severity := value)
    else if c == 'V' then if e.severity == [] then e.(severity := value) else e
    else if c == 'C' then e.(sqlState := value)
    else if c == 'M' then e.(message := value)
    else if c == 'D' then e.(detail := value)
    else if c == 'H' then e.(hint := value)
    else if c == 'P' then e.(position := value)
    else e
  }

  /** The report left in `e` by the fields from position `p` on. */
  function ErrorFields(data: bytes, p: nat, e: ErrorInfo): ErrorInfo
    requires p <= |data|
    decreases |data| - p
  {
    if p == |data| || data[p] == 0 then e
    else
      match ReadCString(data, p + 1)
      case NoNul => e
      case CString(value, next) => ErrorFields(data, next, SetErrorField(e, data[p], value))
  }

  method ParseErrorResponse(data: bytes, before: ErrorInfo) returns (e: ErrorInfo)
    ensures e == ErrorFields(data, 0, before)
  {
    e := before;
    var p := 0;
    while p < |data| && data[p] != 0
      invariant p <= |data|
      invariant ErrorFields(data, p, e) == ErrorFields(data, 0, before)
    {
      var kind := data[p];
      match ReadCString(data, p + 1) {
        case NoNul => return;
        case CString(value, next) =>
          e := SetErrorField(e, kind, value);
          p := next;
      }
    }
  }

  // ---- the short messages ----

  function ParameterStatusOf(data: bytes, parameters: map<bytes, bytes>): map<bytes, bytes> {
    match ReadCString(data, 0)
    case NoNul => parameters
    case CString(key, next) =>
      match ReadCString(data, next)
      case NoNul => parameters
      case CString(value, _) => parameters[key := value]
  }

  datatype BackendKeyData = BackendKeyData(pid: int, key: int, secret: bytes)

  function BackendKeyOf(data: bytes, before: BackendKeyData): BackendKeyData {
    if |data| < 8 then before
    else BackendKeyData(Signed32(ReadU32(data, 0)), Signed32(ReadU32(data, 4)), data[4..])
  }

  datatype Notify = Notify(pid: nat, channel: bytes, payload: bytes)

  function NotificationOf(data: bytes): Option<Notify> {
    if |data| < 4 then None
    else
      match ReadCString(data, 4)
      case NoNul => None
      case CString(channel, next) =>
        match ReadCString(data, next)
        case NoNul => None
        case CString(payload, _) => Some(Notify(ReadU32(data, 0), channel, payload))
  }

  function CommandTagOf(data: bytes, before: bytes): bytes {
    match ReadCString(data, 0)
    case NoNul => before
    case CString(tag, _) => tag
  }

  function ReadyByteOf(data: bytes, before: byte): byte {
    if |data| == 1 then data[0] else before
  }

  // ---- NegotiateProtocolVersion ----

  function Options(data: bytes, p: nat, left: nat): seq<bytes>
    requires p <= |data|
    decreases left
  {
    if left == 0 || p == |data| then []
    else
      match ReadCString(data, p)
      case NoNul => []
      case CString(option, next) => [option] + Options(data, next, left - 1)
  }

  method ParseNegotiation(data: bytes, version: nat, options: seq<bytes>)
    returns (version': nat, options': seq<bytes>)
    ensures version' == if |data| >= 8 then ReadU32(data, 0) else version
    ensures options' == if |data| >= 8 then options + Options(data, 8, ReadU32(data, 4)) else options
  {
    version', options' := version, options;
    if |data| >= 8 {
      version' := ReadU32(data, 0);
      var num := ReadU32(data, 4);
      var p, i := 8, 0;
      while i < num && p < |data|
        invariant 8 <= p <= |data| && i <= num
        invariant options' + Options(data, p, num - i) == options + Options(data, 8, num)
      {
        match ReadCString(data, p) {
          case NoNul =>
            assert Options(data, p, num - i) == [];
            return;
          case CString(option, next) =>
            assert options' + Options(data, p, num - i)
                == (options' + [option]) + Options(data, next, num - (i + 1));
            options' := options' + [option];
            p, i := next, i + 1;
        }
      }
    }
  }

  /** A partial list put in front of what the rest of the payload yields. */
  ghost function Prefixed<T>(done: seq<T>, rest: Option<seq<T>>): Option<seq<T>> {
    match rest
    case None => None
    case Some(xs) => Some(done + xs)
  }

  lemma PrefixedNil<T>(rest: Option<seq<T>>)
    ensures Prefixed([], rest) == rest
  {
    assert rest.Some? ==> [] + rest.value == rest.value;
  }

  lemma PrefixedMore<T>(done: seq<T>, x: T, rest: Option<seq<T>>)
    ensures Prefixed(done, Prefixed([x], rest)) == Prefixed(done + [x], rest)
  {
    assert rest.Some? ==> done + ([x] + rest.value) == done + [x] + rest.value;
  }

  // ---- RowDescription ----

  datatype Field = Field(name: bytes, tableOid: int, columnAttr: int, typeOid: int,
                         typeSize: int, typeModifier: int, format: int)

  function FieldAt(name: bytes, data: bytes, q: nat): Field
    requires q + 18 <= |data|
  {
    Field(name, Signed32(ReadU32(data, q)), Signed16(ReadU16(data, q + 4)), Signed32(ReadU32(data, q + 6)),
          Signed16(ReadU16(data, q + 10)), Signed32(ReadU32(data, q + 12)), Signed16(ReadU16(data, q + 16)))
  }

  function FieldList(data: bytes, p: nat, left: nat): Option<seq<Field>>
    requires p <= |data|
    decreases left
  {
    if left == 0 then Some([])
    else
      match ReadCString(data, p)
      case NoNul => None
      case CString(name, q) =>
        if |data| - q < 18 then None
        else
          match FieldList(data, q + 18, left - 1)
          case None => None
          case Some(fs) => Some([FieldAt(name, data, q)] + fs)
  }

  function Count16(data: bytes): int
    requires |data| >= 2
  {
    Signed16(ReadU16(data, 0))
  }

  /** The column list of a RowDescription; a payload that is cut short, or a
      negative count, leaves no columns. */
  function FieldsOf(data: bytes): seq<Field> {
    if |data| < 2 || Count16(data) < 0 then []
    else
      match FieldList(data, 2, Count16(data))
      case None => []
      case Some(fs) => fs
  }

  /** A payload too short for the count leaves the caller's list `before` alone. */
  method ParseRowDescription(data: bytes, before: seq<Field>) returns (fields: seq<Field>)
    ensures fields == if |data| < 2 then before else FieldsOf(data)
  {
    if |data| < 2 {
      return before;
    }
    var num: nat := if Count16(data) < 0 then 0 else Count16(data);
    var ok;
    ok, fields := ReadFields(data, num);
    if !ok {
      fields := [];
    }
  }

  lemma FieldListStep(done: seq<Field>, data: bytes, p: nat, left: nat, name: bytes, q: nat)
    requires left > 0 && p <= |data| && ReadCString(data, p) == CString(name, q) && q + 18 <= |data|
    ensures Prefixed(done, FieldList(data, p, left))
         == Prefixed(done + [FieldAt(name, data, q)], FieldList(data, q + 18, left - 1))
  {
    PrefixedMore(done, FieldAt(name, data, q), FieldList(data, q + 18, left - 1));
  }

  lemma FieldListStops(done: seq<Field>, data: bytes, p: nat, left: nat)
    requires left > 0 && p <= |data|
    requires var name := ReadCString(data, p); name.CString? ==> |data| - name.next < 18
    ensures Prefixed(done, FieldList(data, p, left)) == None
  {
  }

  lemma FieldListEnds(done: seq<Field>, data: bytes, p: nat)
    requires p <= |data|
    ensures Prefixed(done, FieldList(data, p, 0)) == Some(done)
  {
    assert done + [] == done;
  }

  method ReadFields(data: bytes, num: nat) returns (ok: bool, fields: seq<Field>)
    requires |data| >= 2
    ensures FieldList(data, 2, num) == if ok then Some(fields) else None
  {
    fields := [];
    var p, i := 2, 0;
    ghost var left, all := num, FieldList(data, 2, num);
    PrefixedNil(all);
    while i < num
      invariant 2 <= p <= |data| && i + left == num
      invariant all == Prefixed(fields, FieldList(data, p, left))
    {
      match ReadCString(data, p) {
        case NoNul =>
          FieldListStops(fields, data, p, left);
          return false, [];
        case CString(name, q) =>
          if |data| - q < 18 {
            FieldListStops(fields, data, p, left);
            return false, [];
          }
          FieldListStep(fields, data, p, left, name, q);
          fields := fields + [FieldAt(name, data, q)];
          p, i, left := q + 18, i + 1, left - 1;
      }
    }
    FieldListEnds(fields, data, p);
    return true, fields;
  }

  // ---- DataRow ----

  /** A view into the buffer, with the column it belongs to. */
  datatype Cell = Cell(start: nat, length: nat, isNull: bool, field: Option<nat>)

  /** The cell whose length field stands at `p`; length -1 is null. */
  function CellAt(data: bytes, p: nat, i: nat): Cell
    requires p + 4 <= |data| && -1 <= Signed32(ReadU32(data, p))
  {
    var len := Signed32(ReadU32(data, p));
    if len == -1 then Cell(0, 0, true, Some(i)) else Cell(p + 4, len, false, Some(i))
  }

  function CellList(data: bytes, p: nat, i: nat, n: nat): (r: Option<seq<Cell>>)
    requires p <= |data| && i <= n
    ensures r.Some? ==>
              |r.value| == n - i &&
              forall k | 0 <= k < n - i ::
                r.value[k].field == Some(i + k) &&
                (r.value[k].isNull || p + 4 <= r.value[k].start <= r.value[k].start + r.value[k].length <= |data|)
    decreases n - i
  {
    if i == n then Some([])
    else if p + 4 > |data| then None
    else
      var len := Signed32(ReadU32(data, p));
      if len < -1 || |data| - (p + 4) < len then None
      else
        var cell := CellAt(data, p, i);
        match CellList(data, p + 4 + cell.length, i + 1, n)
        case None => None
        case Some(cells) => Some([cell] + cells)
  }

  /** The cells of a DataRow, as positions in its payload; `None` where the
      reader reports a malformed row. */
  function RowCells(data: bytes, columns: nat): (r: Option<seq<Cell>>)
    ensures r.Some? ==>
              |r.value| <= columns &&
              forall k | 0 <= k < |r.value| ::
                r.value[k].field == Some(k as nat) &&
                (r.value[k].isNull || 6 <= r.value[k].start <= r.value[k].start + r.value[k].length <= |data|)
  {
    if |data| < 2 || Count16(data) < 0 || Count16(data) > columns then None
    else CellList(data, 2, 0, Count16(data))
  }

  method ParseDataRow(data: bytes, columns: nat) returns (ok: bool, row: seq<Cell>)
    ensures ok <==> RowCells(data, columns).Some?
    ensures ok ==> row == RowCells(data, columns).value
  {
    row := [];
    if |data| < 2 {
      return false, row;
    }
    var num := Count16(data);
    if num < 0 || num > columns {
      return false, row;
    }
    var p, i := 2, 0;
    PrefixedNil(CellList(data, 2, 0, num));
    while i < num
      invariant 2 <= p <= |data| && 0 <= i <= num
      invariant CellList(data, 2, 0, num) == Prefixed(row, CellList(data, p, i, num))
    {
      if p + 4 > |data| {
        return false, row;
      }
      var len := Signed32(ReadU32(data, p));
      var q := p + 4;
      ghost var before := row;
      if len == -1 {
        row := row + [Cell(0, 0, true, Some(i))];
        p := q;
      } else if len >= 0 {
        if |data| - q < len {
          return false, row;
        }
        row := row + [Cell(q, len, false, Some(i))];
        p := q + len;
      } else {
        return false, row;
      }
      PrefixedMore(before, row[|before|], CellList(data, p, i + 1, num));
      i := i + 1;
    }
    return true, row;
  }

  /** What a cell stands for, null kept apart from the empty value. */
  datatype Datum = Null | Value(content: bytes)

  function Content(data: bytes, cell: Cell): Datum {
    if cell.isNull || cell.start + cell.length > |data| then Null
    else Value(data[cell.start..cell.start + cell.length])
  }

  function Contents(data: bytes, row: seq<Cell>): (r: seq<Datum>)
    ensures |r| == |row|
    ensures forall k | 0 <= k < |row| :: r[k] == Content(data, row[k])
  {
    if row == [] then [] else [Content(data, row[0])] + Contents(data, row[1..])
  }

  /** The values of a DataRow, or nothing when the reader rejects it. */
  function RowOf(data: bytes, columns: nat): Option<seq<Datum>> {
    match RowCells(data, columns)
    case None => None
    case Some(cells) => Some(Contents(data, cells))
  }

  // ---- writing a value list, as Bind and DataRow share it ----

  function WriteDatum(d: Datum): bytes {
    match d
    case Null => WriteU32(-1)
    case Value(v) => WriteU32(|v|) + v
  }

  function WriteData(ds: seq<Datum>): bytes {
    if ds == [] then [] else WriteDatum(ds[0]) + WriteData(ds[1..])
  }

  predicate DatumFits(d: Datum) {
    d.Value? ==> |d.content| < TWO_31
  }

  function WrittenLength(d: Datum): int {
    if d.Null? then -1 else |d.content|
  }

  lemma ReadPrefixed(data: bytes, p: nat, len: int, content: bytes, after: bytes)
    requires -TWO_31 <= len < TWO_31
    requires p <= |data| && data[p..] == WriteU32(len) + content + after
    ensures p + 4 + |content| + |after| == |data| && Signed32(ReadU32(data, p)) == len
    ensures data[p + 4..p + 4 + |content|] == content && data[p + 4 + |content|..] == after
  {
    assert data == data[..p] + data[p..];
    assert data == data[..p] + WriteU32(len) + (content + after);
    ReadWriteSigned(data[..p], len, content + after);
  }

  /** One written value, met by the reader at its position. */
  lemma ReadOneDatum(data: bytes, p: nat, d: Datum, after: bytes)
    requires DatumFits(d)
    requires p <= |data| && data[p..] == WriteDatum(d) + after
    ensures p + |WriteDatum(d)| + |after| == |data|
    ensures Signed32(ReadU32(data, p)) == WrittenLength(d)
    ensures d.Value? ==> data[p + 4..p + 4 + |d.content|] == d.content
    ensures data[p + |WriteDatum(d)|..] == after
  {
    var content := if d.Null? then [] else d.content;
    assert WriteDatum(d) == WriteU32(WrittenLength(d)) + content;
    ReadPrefixed(data, p, WrittenLength(d), content, after);
  }

  /** The reader's loop gives these values. */
  predicate Yields(data: bytes, p: nat, i: nat, n: nat, ds: seq<Datum>)
    requires p <= |data| && i <= n
  {
    CellList(data, p, i, n).Some? && Contents(data, CellList(data, p, i, n).value) == ds
  }

  /** It recovers a written value list, wherever it stands in the payload. */
  lemma {:induction false} CellsOfWritten(data: bytes, p: nat, ds: seq<Datum>, after: bytes, i: nat, n: nat)
    requires forall k | 0 <= k < |ds| :: DatumFits(ds[k])
    requires p <= |data| && data[p..] == WriteData(ds) + after
    requires n == i + |ds|
    ensures Yields(data, p, i, n, ds)
    decreases |ds|
  {
    if ds != [] {
      var p' := NextDatum(data, p, ds, after);
      CellsOfWritten(data, p', ds[1..], after, i + 1, n);
      CellListStep(data, p, p', ds, i, n);
    }
  }

  lemma WriteDataCons(ds: seq<Datum>, after: bytes)
    requires ds != []
    ensures WriteData(ds) + after == WriteDatum(ds[0]) + (WriteData(ds[1..]) + after)
  {
    Assoc(WriteDatum(ds[0]), WriteData(ds[1..]), after);
  }

  /** Where the second of the written values stands. */
  lemma NextDatum(data: bytes, p: nat, ds: seq<Datum>, after: bytes) returns (p': nat)
    requires ds != [] && DatumFits(ds[0])
    requires p <= |data| && data[p..] == WriteData(ds) + after
    ensures p + 4 <= p' == p + |WriteDatum(ds[0])| <= |data| && data[p'..] == WriteData(ds[1..]) + after
    ensures Signed32(ReadU32(data, p)) == WrittenLength(ds[0])
    ensures ds[0].Value? ==> data[p + 4..p'] == ds[0].content
  {
    WriteDataCons(ds, after);
    ReadOneDatum(data, p, ds[0], WriteData(ds[1..]) + after);
    p' := p + |WriteDatum(ds[0])|;
  }

  lemma CellListMore(data: bytes, p: nat, i: nat, n: nat, cell: Cell)
    requires i < n && p + 4 <= |data| && -1 <= Signed32(ReadU32(data, p)) <= |data| - (p + 4)
    requires cell == CellAt(data, p, i) && CellList(data, p + 4 + cell.length, i + 1, n).Some?
    ensures CellList(data, p, i, n) == Some([cell] + CellList(data, p + 4 + cell.length, i + 1, n).value)
  {
  }

  lemma CellIsDatum(data: bytes, p: nat, p': nat, d: Datum, i: nat)
    requires p + 4 <= |data| && DatumFits(d) && Signed32(ReadU32(data, p)) == WrittenLength(d)
    requires p' == p + |WriteDatum(d)| <= |data| && (d.Value? ==> data[p + 4..p'] == d.content)
    ensures -1 <= Signed32(ReadU32(data, p)) <= |data| - (p + 4)
    ensures var cell := CellAt(data, p, i); p' == p + 4 + cell.length && Content(data, cell) == d
  {
  }

  lemma CellListStep(data: bytes, p: nat, p': nat, ds: seq<Datum>, i: nat, n: nat)
    requires i < n && p + 4 <= |data| && ds != [] && DatumFits(ds[0])
    requires Signed32(ReadU32(data, p)) == WrittenLength(ds[0])
    requires p' == p + |WriteDatum(ds[0])| <= |data|
    requires ds[0].Value? ==> data[p + 4..p'] == ds[0].content
    requires Yields(data, p', i + 1, n, ds[1..])
    ensures Yields(data, p, i, n, ds)
  {
    CellIsDatum(data, p, p', ds[0], i);
    CellFirst(data, p, p', ds, i, n, CellAt(data, p, i));
  }

  lemma CellFirst(data: bytes, p: nat, p': nat, ds: seq<Datum>, i: nat, n: nat, cell: Cell)
    requires i < n && p + 4 <= |data| && -1 <= Signed32(ReadU32(data, p)) <= |data| - (p + 4)
    requires cell == CellAt(data, p, i) && p' == p + 4 + cell.length
    requires ds != [] && Content(data, cell) == ds[0] && Yields(data, p', i + 1, n, ds[1..])
    ensures Yields(data, p, i, n, ds)
  {
    CellListMore(data, p, i, n, cell);
    ContentsAre(data, cell, CellList(data, p', i + 1, n).value, ds);
  }

  lemma ContentsAre(data: bytes, cell: Cell, cells: seq<Cell>, ds: seq<Datum>)
    requires ds != [] && Content(data, cell) == ds[0] && Contents(data, cells) == ds[1..]
    ensures Contents(data, [cell] + cells) == ds
  {
    ContentsCons(data, cell, cells);
  }

  lemma ContentsCons(data: bytes, cell: Cell, rest: seq<Cell>)
    ensures Contents(data, [cell] + rest) == [Content(data, cell)] + Contents(data, rest)
  {
    assert ([cell] + rest)[1..] == rest;
  }

  function WriteRow(ds: seq<Datum>): bytes {
    WriteU16(|ds|) + WriteData(ds)
  }

  /** Reading a written row gives the values back, null distinct from empty. */
  lemma RowOfWritten(ds: seq<Datum>, trailing: bytes, columns: nat)
    requires |ds| < TWO_15 && |ds| <= columns
    requires forall k | 0 <= k < |ds| :: DatumFits(ds[k])
    ensures RowOf(WriteRow(ds) + trailing, columns) == Some(ds)
  {
    var n, written := WriteU16(|ds|), WriteData(ds);
    assert WriteRow(ds) + trailing == [] + n + (written + trailing);
    ReadWriteSigned([], |ds|, written + trailing);
    assert (WriteRow(ds) + trailing)[2..] == written + trailing;
    CellsOfWritten(WriteRow(ds) + trailing, 2, ds, trailing, 0, |ds|);
  }
}
