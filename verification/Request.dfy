/** Encoding of the messages a task sends, and what a server reads out of them. */
module Request {
  import opened Wrappers
  import opened Wire
  import opened Framing
  import opened Parser

  datatype Parameter = Parameter(oid: nat, format: nat, isNull: bool, data: bytes)
  {
    function Datum(): Datum {
      if isNull then Null else Value(data)
    }
  }

  // ---- what is written ----

  function Oids(ps: seq<Parameter>): bytes {
    if ps == [] then [] else WriteU32(ps[0].oid) + Oids(ps[1..])
  }

  function Formats(ps: seq<Parameter>): bytes {
    if ps == [] then [] else WriteU16(ps[0].format) + Formats(ps[1..])
  }

  function Datums(ps: seq<Parameter>): (ds: seq<Datum>)
    ensures |ds| == |ps| && forall k | 0 <= k < |ps| :: ds[k] == ps[k].Datum()
  {
    if ps == [] then [] else [ps[0].Datum()] + Datums(ps[1..])
  }

  datatype Extended = Extended(skipParse: bool, statement: bytes, portal: bytes, query: bytes,
                               params: seq<Parameter>, resultFormat: nat)

  function ParsePayload(q: Extended): bytes {
    q.statement + [0] + q.query + [0] + WriteU16(|q.params|) + Oids(q.params)
  }

  function BindPayload(q: Extended): bytes {
    q.portal + [0] + q.statement + [0] + WriteU16(|q.params|) + Formats(q.params)
    + WriteRow(Datums(q.params)) + WriteU16(1) + WriteU16(q.resultFormat)
  }

  function DescribePayload(q: Extended): bytes {
    ['P' as int] + q.portal + [0]
  }

  function ExecutePayload(q: Extended): bytes {
    q.portal + [0] + WriteU32(0)
  }

  /** The messages of an extended query, in order. */
  function ExtendedFrames(q: Extended): seq<Frame> {
    (if q.skipParse then [] else [Frame('P' as int, ParsePayload(q))]) + BoundFrames(q)
  }

  function BoundFrames(q: Extended): seq<Frame> {
    [Frame('B' as int, BindPayload(q)), Frame('D' as int, DescribePayload(q)),
     Frame('E' as int, ExecutePayload(q)), Frame('S' as int, [])]
  }

  function CopyFrames(fail: bool, done: bool, data: bytes): seq<Frame> {
    if fail then [Frame('f' as int, data + [0])]
    else (if data == [] then [] else [Frame('d' as int, data)]) + (if done then [Frame('c' as int, [])] else [])
  }

  type Pairs = seq<(bytes, bytes)>

  function PairBytes(kv: (bytes, bytes)): bytes {
    kv.0 + [0] + kv.1 + [0]
  }

  function PairsBytes(kvs: Pairs): bytes {
    if kvs == [] then [] else PairBytes(kvs[0]) + PairsBytes(kvs[1..])
  }

  const USER := Text("user")
  const DATABASE := Text("database")

  /** The parameters of a startup message that its fixed entries leave room for. */
  function Extra(kvs: Pairs): Pairs {
    if kvs == [] then []
    else if IsExtra(kvs[0]) then [kvs[0]] + Extra(kvs[1..])
    else Extra(kvs[1..])
  }

  function StartupPairs(user: bytes, db: bytes, kvs: Pairs): Pairs {
    [(USER, user)] + (if db == [] then [] else [(DATABASE, db)]) + Extra(kvs)
  }

  /** A message without a type byte: a length that counts itself, and a body. */
  function Untyped(body: bytes): bytes {
    WriteU32(4 + |body|) + body
  }

  const SSL_REQUEST := 80877103
  const CANCEL_REQUEST := 80877102

  /** Every field that decides what is sent. */
  datatype Outgoing = Outgoing(
    disconnect: bool, cancel: bool, copy: bool, copyDone: bool, copyFail: bool, wait: bool,
    startup: bool, hasParams: bool, copyData: bytes, cancelPid: int, cancelSecret: bytes,
    user: bytes, db: bytes, version: nat, startupParams: Pairs, extended: Extended)

  function Output(r: Outgoing): bytes {
    if r.disconnect then EncodeAll([Frame('X' as int, [])])
    else if r.cancel then Untyped(WriteU32(CANCEL_REQUEST) + WriteU32(r.cancelPid) + r.cancelSecret)
    else if r.copy then EncodeAll(CopyFrames(r.copyFail, r.copyDone, r.copyData))
    else if r.wait then []
    else if r.startup then
      Untyped(WriteU32(r.version) + (PairsBytes(StartupPairs(r.user, r.db, r.startupParams)) + [0]))
    else if !r.hasParams then EncodeAll([Frame('Q' as int, r.extended.query + [0])])
    else EncodeAll(ExtendedFrames(r.extended))
  }

  // ---- the encoder ----

  lemma {:induction false} EncodeAllSnoc(fs: seq<Frame>, f: Frame)
    ensures EncodeAll(fs + [f]) == EncodeAll(fs) + Encode(f)
  {
    EncodeAllConcat(fs, [f]);
    assert EncodeAll([f]) == Encode(f) + EncodeAll([]);
  }

  /** The request object; `out` groups the fields its setters fill in. */
  class PostgresRequest {
    const out: Outgoing
    var buf: bytes

    constructor (out: Outgoing)
      ensures this.out == out && buf == []
    {
      this.out, buf := out, [];
    }

    /** Appends one typed message. */
    method Add(kind: byte, payload: bytes, ghost fs: seq<Frame>)
      requires buf == EncodeAll(fs)
      modifies this`buf
      ensures buf == EncodeAll(fs + [Frame(kind, payload)])
    {
      ghost var f := Frame(kind, payload);
      EncodeAllSnoc(fs, f);
      assert EncodeAll(fs) + [kind] + WriteU32(4 + |payload|) + payload == EncodeAll(fs) + Framing.Encode(f);
      buf := buf + [kind];
      buf := buf + WriteU32(4 + |payload|);
      buf := buf + payload;
    }

    method EncodeTerminate() returns (n: nat)
      modifies this`buf
      ensures n == 1 && buf == EncodeAll([Frame('X' as int, [])])
    {
      buf := [];
      Add('X' as int, [], []);
      return 1;
    }

    method EncodeCancel() returns (n: nat)
      modifies this`buf
      ensures n == 1 && buf == Untyped(WriteU32(CANCEL_REQUEST) + WriteU32(out.cancelPid) + out.cancelSecret)
    {
      buf := [];
      buf := buf + WriteU32(12 + |out.cancelSecret|);
      buf := buf + WriteU32(CANCEL_REQUEST);
      buf := buf + WriteU32(out.cancelPid);
      buf := buf + out.cancelSecret;
      return 1;
    }

    method EncodeCopy() returns (n: nat)
      modifies this`buf
      ensures buf == EncodeAll(CopyFrames(out.copyFail, out.copyDone, out.copyData))
      ensures n == if buf == [] then 0 else 1
    {
      buf := [];
      if out.copyFail {
        Add('f' as int, out.copyData + [0], []);
      } else {
        ghost var fs := [];
        if out.copyData != [] {
          Add('d' as int, out.copyData, fs);
          fs := fs + [Frame('d' as int, out.copyData)];
        }
        if out.copyDone {
          Add('c' as int, [], fs);
        }
      }
      return if buf == [] then 0 else 1;
    }

    method EncodeStartup() returns (n: nat)
      modifies this`buf
      ensures n == 1
      ensures var pairs := StartupPairs(out.user, out.db, out.startupParams);
              buf == Untyped(WriteU32(out.version) + (PairsBytes(pairs) + [0]))
    {
      var params := BuildPairs(out.user, out.db, out.startupParams);
      params := params + [0];
      buf := [];
      buf := buf + WriteU32(4 + 4 + |params|);
      buf := buf + WriteU32(out.version);
      buf := buf + params;
      assert buf == WriteU32(4 + |WriteU32(out.version) + params|) + (WriteU32(out.version) + params);
      return 1;
    }

    method EncodeSimpleQuery() returns (n: nat)
      modifies this`buf
      ensures n == 1 && buf == EncodeAll([Frame('Q' as int, out.extended.query + [0])])
    {
      buf := [];
      Add('Q' as int, out.extended.query + [0], []);
      return 1;
    }

    /** Bind, Describe, Execute and Sync. */
    method AddBound(ghost before: seq<Frame>)
      requires buf == EncodeAll(before)
      modifies this`buf
      ensures buf == EncodeAll(before + BoundFrames(out.extended))
    {
      ghost var fs := before;
      var bind := BuildBind(out.extended);
      Add('B' as int, bind, fs);
      fs := fs + [Frame('B' as int, bind)];
      var describe := ['P' as int] + out.extended.portal + [0];
      Add('D' as int, describe, fs);
      fs := fs + [Frame('D' as int, describe)];
      var execute := out.extended.portal + [0] + WriteU32(0);
      Add('E' as int, execute, fs);
      fs := fs + [Frame('E' as int, execute)];
      Add('S' as int, [], fs);
      fs := fs + [Frame('S' as int, [])];
      assert fs == before + BoundFrames(out.extended);
    }

    method EncodeExtendedQuery() returns (n: nat)
      modifies this`buf
      ensures n == 1 && buf == EncodeAll(ExtendedFrames(out.extended))
    {
      buf := [];
      ghost var fs: seq<Frame> := [];
      if !out.extended.skipParse {
        var parse := BuildParse(out.extended);
        Add('P' as int, parse, fs);
        fs := fs + [Frame('P' as int, parse)];
      }
      AddBound(fs);
      assert fs + BoundFrames(out.extended) == ExtendedFrames(out.extended);
      return 1;
    }

    /** Leaves the encoded request in the buffer; nothing is sent when 0 is returned. */
    method Encode() returns (n: nat)
      modifies this`buf
      ensures n <= 1
      ensures (if n == 0 then [] else buf) == Output(out)
      ensures n == 0 || |buf| < TWO_32 - 1 ==> Delivers(out, if n == 0 then [] else buf)
    {
      if |Output(out)| < TWO_32 - 1 {
        OutputDelivers(out);
      }
      if out.disconnect { n := EncodeTerminate(); }
      else if out.cancel { n := EncodeCancel(); }
      else if out.copy { n := EncodeCopy(); }
      else if out.wait { return 0; }
      else if out.startup { n := EncodeStartup(); }
      else if !out.hasParams { n := EncodeSimpleQuery(); }
      else { n := EncodeExtendedQuery(); }
    }
  }

  /** The message that asks for TLS, before any startup. */
  class PostgresSSLRequest {
    var buf: bytes

    constructor ()
      ensures buf == []
    {
      buf := [];
    }

    method Encode() returns (n: nat)
      modifies this
      ensures n == 1 && buf == Untyped(WriteU32(SSL_REQUEST))
    {
      buf := [];
      buf := buf + WriteU32(8);
      buf := buf + WriteU32(SSL_REQUEST);
      return 1;
    }
  }

  lemma {:induction false} PairsBytesConcat(a: Pairs, b: Pairs)
    ensures PairsBytes(a + b) == PairsBytes(a) + PairsBytes(b)
  {
    if a == [] {
      assert a + b == b;
    } else {
      assert (a + b)[0] == a[0] && (a + b)[1..] == a[1..] + b;
      PairsBytesConcat(a[1..], b);
      Assoc(PairBytes(a[0]), PairsBytes(a[1..]), PairsBytes(b));
    }
  }

  /** The parameter list of a startup message, up to its terminator. */
  method BuildPairs(user: bytes, db: bytes, kvs: Pairs) returns (params: bytes)
    ensures params == PairsBytes(StartupPairs(user, db, kvs))
  {
    ghost var fixed := [(USER, user)] + if db == [] then [] else [(DATABASE, db)];
    params := USER + [0] + user + [0];
    assert PairsBytes([(USER, user)]) == PairBytes((USER, user)) + PairsBytes([]);
    if db != [] {
      PairsBytesConcat([(USER, user)], [(DATABASE, db)]);
      assert PairsBytes([(DATABASE, db)]) == PairBytes((DATABASE, db)) + PairsBytes([]);
      params := params + (DATABASE + [0] + db + [0]);
    }
    assert params == PairsBytes(fixed);
    PairsBytesConcat(fixed, Extra(kvs));
    params := AddExtra(params, kvs);
  }

  /** Whether the fixed entries leave room for this one. */
  predicate IsExtra(kv: (bytes, bytes)) {
    kv.0 != USER && kv.0 != DATABASE
  }

  method AddExtra(before: bytes, kvs: Pairs) returns (params: bytes)
    ensures params == before + PairsBytes(Extra(kvs))
  {
    params := before;
    assert kvs[0..] == kvs;
    for i := 0 to |kvs|
      invariant params + PairsBytes(Extra(kvs[i..])) == before + PairsBytes(Extra(kvs))
    {
      ExtraStep(params, kvs, i);
      if IsExtra(kvs[i]) {
        params := params + (kvs[i].0 + [0] + kvs[i].1 + [0]);
      }
    }
  }

  lemma ExtraStep(params: bytes, kvs: Pairs, i: nat)
    requires i < |kvs|
    ensures params + PairsBytes(Extra(kvs[i..]))
         == (if IsExtra(kvs[i]) then params + PairBytes(kvs[i]) else params) + PairsBytes(Extra(kvs[i + 1..]))
  {
    assert kvs[i..][1..] == kvs[i + 1..];
    if IsExtra(kvs[i]) {
      PairsStep(params, kvs[i], Extra(kvs[i + 1..]));
    }
  }

  lemma PairsStep(params: bytes, kv: (bytes, bytes), rest: Pairs)
    ensures params + PairsBytes([kv] + rest) == params + PairBytes(kv) + PairsBytes(rest)
  {
    assert ([kv] + rest)[1..] == rest;
    Assoc(params, PairBytes(kv), PairsBytes(rest));
  }

  method AddOids(before: bytes, ps: seq<Parameter>) returns (payload: bytes)
    ensures payload == before + Oids(ps)
  {
    payload := before;
    assert ps[0..] == ps;
    for i := 0 to |ps|
      invariant payload + Oids(ps[i..]) == before + Oids(ps)
    {
      assert ps[i..][1..] == ps[i + 1..];
      Assoc(payload, WriteU32(ps[i].oid), Oids(ps[i + 1..]));
      payload := payload + WriteU32(ps[i].oid);
    }
  }

  method AddFormats(before: bytes, ps: seq<Parameter>) returns (payload: bytes)
    ensures payload == before + Formats(ps)
  {
    payload := before;
    assert ps[0..] == ps;
    for i := 0 to |ps|
      invariant payload + Formats(ps[i..]) == before + Formats(ps)
    {
      assert ps[i..][1..] == ps[i + 1..];
      Assoc(payload, WriteU16(ps[i].format), Formats(ps[i + 1..]));
      payload := payload + WriteU16(ps[i].format);
    }
  }

  method AddValues(before: bytes, ps: seq<Parameter>) returns (payload: bytes)
    ensures payload == before + WriteData(Datums(ps))
  {
    payload := before;
    assert ps[0..] == ps;
    for i := 0 to |ps|
      invariant payload + WriteData(Datums(ps[i..])) == before + WriteData(Datums(ps))
    {
      var p := ps[i];
      DatumsStep(ps, i);
      Assoc(payload, WriteDatum(p.Datum()), WriteData(Datums(ps[i + 1..])));
      if p.isNull {
        payload := payload + WriteU32(-1);
      } else {
        payload := payload + (WriteU32(|p.data|) + p.data);
      }
    }
  }

  lemma DatumsStep(ps: seq<Parameter>, i: nat)
    requires i < |ps|
    ensures WriteData(Datums(ps[i..])) == WriteDatum(ps[i].Datum()) + WriteData(Datums(ps[i + 1..]))
  {
    assert ps[i..][1..] == ps[i + 1..];
    assert Datums(ps[i..])[1..] == Datums(ps[i + 1..]);
  }

  method BuildParse(q: Extended) returns (payload: bytes)
    ensures payload == ParsePayload(q)
  {
    payload := q.statement + [0] + q.query + [0] + WriteU16(|q.params|);
    payload := AddOids(payload, q.params);
  }

  method BuildBind(q: Extended) returns (payload: bytes)
    ensures payload == BindPayload(q)
  {
    payload := q.portal + [0] + q.statement + [0] + WriteU16(|q.params|);
    payload := AddFormats(payload, q.params);
    ghost var head := payload;
    payload := payload + WriteU16(|q.params|);
    payload := AddValues(payload, q.params);
    Assoc(head, WriteU16(|q.params|), WriteData(Datums(q.params)));
    payload := payload + WriteU16(1);
    payload := payload + WriteU16(q.resultFormat);
  }

  // ---- what a server reads ----

  function ReadU16s(s: bytes, at: nat, n: nat): Option<seq<nat>>
    decreases n
  {
    if n == 0 then Some([])
    else if at + 2 > |s| then None
    else
      var rest := ReadU16s(s, at + 2, n - 1);
      if rest.None? then None else Some([ReadU16(s, at)] + rest.value)
  }

  function ReadU32s(s: bytes, at: nat, n: nat): Option<seq<nat>>
    decreases n
  {
    if n == 0 then Some([])
    else if at + 4 > |s| then None
    else
      var rest := ReadU32s(s, at + 4, n - 1);
      if rest.None? then None else Some([ReadU32(s, at)] + rest.value)
  }

  /** Two strings and a count, as Parse and Bind both begin. */
  datatype Head = Head(first: bytes, second: bytes, count: nat, next: nat)

  function ReadHead(s: bytes): (h: Option<Head>)
    ensures h.Some? ==> h.value.next <= |s|
  {
    var first := ReadCString(s, 0);
    if first.NoNul? then None
    else
      var second := ReadCString(s, first.next);
      if second.NoNul? || second.next + 2 > |s| then None
      else Some(Head(first.text, second.text, ReadU16(s, second.next), second.next + 2))
  }

  datatype Parse = Parse(statement: bytes, query: bytes, oids: seq<nat>)

  function ReadParse(s: bytes): Option<Parse> {
    match ReadHead(s)
    case None => None
    case Some(h) =>
      var oids := ReadU32s(s, h.next, h.count);
      if oids.None? || h.next + 4 * h.count != |s| then None
      else Some(Parse(h.first, h.second, oids.value))
  }

  datatype Bind = Bind(portal: bytes, statement: bytes, formats: seq<nat>, bound: Bound)

  /** What a Bind says to a reader that takes it apart from front to back. */
  predicate BindSays(s: bytes, b: Bind) {
    match ReadHead(s)
    case None => false
    case Some(h) =>
      && h.first == b.portal && h.second == b.statement
      && BodySays(s, h.next, h.count, b.formats, b.bound)
  }

  /** From the `n` format codes at `at` on. */
  predicate BodySays(s: bytes, at: nat, n: nat, formats: seq<nat>, b: Bound)
    requires at <= |s|
  {
    at + 2 * n <= |s| && ReadU16s(s, at, n) == Some(formats) && ReadBound(s[at + 2 * n..], n) == Some(b)
  }

  datatype Bound = Bound(values: seq<Datum>, resultFormat: nat)

  /** The space a value list takes up. */
  function SizeOf(ds: seq<Datum>): nat {
    if ds == [] then 0 else 4 + (if ds[0].Null? then 0 else |ds[0].content|) + SizeOf(ds[1..])
  }

  lemma {:induction false} SizeOfWritten(ds: seq<Datum>)
    ensures |WriteData(ds)| == SizeOf(ds)
  {
    if ds != [] {
      SizeOfWritten(ds[1..]);
    }
  }

  /** The value list, read as a DataRow is, and the one result format. */
  function ReadBound(s: bytes, n: nat): Option<Bound> {
    BoundBy(s, RowOf(s, n))
  }

  function BoundBy(s: bytes, values: Option<seq<Datum>>): Option<Bound> {
    if values.None? then None
    else
      var end := 2 + SizeOf(values.value);
      if end + 4 != |s| || ReadU16(s, end) != 1 then None
      else Some(Bound(values.value, ReadU16(s, end + 2)))
  }

  function ReadDescribe(s: bytes): Option<bytes> {
    if s == [] || s[0] != 'P' as int then None
    else
      var portal := ReadCString(s, 1);
      if portal.NoNul? || portal.next != |s| then None else Some(portal.text)
  }

  datatype Execute = Execute(portal: bytes, rows: nat)

  function ReadExecute(s: bytes): Option<Execute> {
    var portal := ReadCString(s, 0);
    if portal.NoNul? || portal.next + 4 != |s| then None else Some(Execute(portal.text, ReadU32(s, portal.next)))
  }

  predicate InRange(p: Parameter) {
    p.oid < TWO_32 && p.format < TWO_16 && DatumFits(p.Datum())
  }

  predicate AllInRange(ps: seq<Parameter>) {
    forall k | 0 <= k < |ps| :: InRange(ps[k])
  }

  predicate AllDatumsFit(ds: seq<Datum>) {
    forall k | 0 <= k < |ds| :: DatumFits(ds[k])
  }

  lemma DatumsFit(ps: seq<Parameter>)
    requires AllInRange(ps)
    ensures AllDatumsFit(Datums(ps))
  {
  }

  function OidsOf(ps: seq<Parameter>): seq<nat> {
    if ps == [] then [] else [ps[0].oid] + OidsOf(ps[1..])
  }

  function FormatsOf(ps: seq<Parameter>): seq<nat> {
    if ps == [] then [] else [ps[0].format] + FormatsOf(ps[1..])
  }

  lemma {:induction false} FormatsAt(s: bytes, at: nat, ps: seq<Parameter>, after: bytes)
    requires at <= |s| && s[at..] == Formats(ps) + after && AllInRange(ps)
    ensures at + 2 * |ps| + |after| == |s| && s[at + 2 * |ps|..] == after
    ensures ReadU16s(s, at, |ps|) == Some(FormatsOf(ps))
    decreases |ps|
  {
    if ps != [] {
      var rest := Formats(ps[1..]) + after;
      assert s[at..] == WriteU16(ps[0].format) + rest;
      U16At(s, at, ps[0].format, rest);
      FormatsAt(s, at + 2, ps[1..], after);
    }
  }

  lemma {:induction false} OidsAt(s: bytes, at: nat, ps: seq<Parameter>)
    requires at <= |s| && s[at..] == Oids(ps) && AllInRange(ps)
    ensures at + 4 * |ps| == |s|
    ensures ReadU32s(s, at, |ps|) == Some(OidsOf(ps))
    decreases |ps|
  {
    if ps != [] {
      U32At(s, at, ps[0].oid, Oids(ps[1..]));
      OidsAt(s, at + 4, ps[1..]);
    }
  }

  /** What a caller has to see to: names and query without NUL, fewer than 2^15
      parameters, and sizes that fit their fields. */
  predicate Sendable(q: Extended) {
    && NulFree(q.statement) && NulFree(q.portal) && NulFree(q.query)
    && |q.params| < TWO_15 && AllInRange(q.params) && q.resultFormat < TWO_16
  }

  lemma HeadRead(s: bytes, first: bytes, second: bytes, n: nat, after: bytes)
    requires s == first + [0] + second + [0] + WriteU16(n) + after
    requires NulFree(first) && NulFree(second) && n < TWO_16
    ensures var at := |first| + 1 + |second| + 1 + 2;
            ReadHead(s) == Some(Head(first, second, n, at)) && at + |after| == |s| && s[at..] == after
  {
    var b := WriteU16(n) + after;
    assert s[0..] == first + [0] + second + [0] + b;
    TwoStringsAt(s, 0, first, second, b);
    U16At(s, |first| + 1 + |second| + 1, n, after);
  }

  lemma ParseRoundTrip(q: Extended)
    requires Sendable(q)
    ensures ReadParse(ParsePayload(q)) == Some(Parse(q.statement, q.query, OidsOf(q.params)))
  {
    var s := ParsePayload(q);
    HeadRead(s, q.statement, q.query, |q.params|, Oids(q.params));
    OidsAt(s, |q.statement| + 1 + |q.query| + 1 + 2, q.params);
  }

  lemma TailAt(s: bytes, row: bytes, one: bytes, f: bytes, resultFormat: nat)
    requires s == row + one + f && one == WriteU16(1) && f == WriteU16(resultFormat) && resultFormat < TWO_16
    ensures s == row + (one + f)
    ensures |row| + 4 == |s| && ReadU16(s, |row|) == 1 && ReadU16(s, |row| + 2) == resultFormat
  {
    assert s[|row|..] == one + f;
    U16At(s, |row|, 1, f);
    assert f == f + [];
    U16At(s, |row| + 2, resultFormat, []);
  }

  lemma BoundRead(s: bytes, ds: seq<Datum>, resultFormat: nat)
    requires s == WriteRow(ds) + WriteU16(1) + WriteU16(resultFormat)
    requires AllDatumsFit(ds) && |ds| < TWO_15 && resultFormat < TWO_16
    ensures ReadBound(s, |ds|) == Some(Bound(ds, resultFormat))
  {
    TailAt(s, WriteRow(ds), WriteU16(1), WriteU16(resultFormat), resultFormat);
    RowOfWritten(ds, WriteU16(1) + WriteU16(resultFormat), |ds|);
    SizeOfWritten(ds);
    BoundIs(s, ds, 2 + SizeOf(ds));
  }

  lemma BoundIs(s: bytes, ds: seq<Datum>, end: nat)
    requires end == 2 + SizeOf(ds) && end + 4 == |s| && ReadU16(s, end) == 1
    ensures BoundBy(s, Some(ds)) == Some(Bound(ds, ReadU16(s, end + 2)))
  {
  }

  lemma BodyRead(s: bytes, at: nat, ps: seq<Parameter>, d: bytes, b: Bound)
    requires AllInRange(ps) && ReadBound(d, |ps|) == Some(b)
    requires at <= |s| && s[at..] == Formats(ps) + d
    ensures BodySays(s, at, |ps|, FormatsOf(ps), b)
  {
    FormatsAt(s, at, ps, d);
  }

  lemma BindRead(s: bytes, portal: bytes, statement: bytes, ps: seq<Parameter>, d: bytes, b: Bound)
    requires s == portal + [0] + statement + [0] + WriteU16(|ps|) + (Formats(ps) + d)
    requires NulFree(portal) && NulFree(statement) && |ps| < TWO_16 && AllInRange(ps)
    requires ReadBound(d, |ps|) == Some(b)
    ensures BindSays(s, Bind(portal, statement, FormatsOf(ps), b))
  {
    HeadRead(s, portal, statement, |ps|, Formats(ps) + d);
    var h := ReadHead(s).value;
    BodyRead(s, h.next, ps, d, b);
    HeadAndBody(s, h, FormatsOf(ps), b);
  }

  lemma HeadAndBody(s: bytes, h: Head, formats: seq<nat>, b: Bound)
    requires ReadHead(s) == Some(h) && BodySays(s, h.next, h.count, formats, b)
    ensures BindSays(s, Bind(h.first, h.second, formats, b))
  {
  }

  lemma BindRoundTrip(q: Extended)
    requires Sendable(q)
    ensures var bound := Bound(Datums(q.params), q.resultFormat);
            BindSays(BindPayload(q), Bind(q.portal, q.statement, FormatsOf(q.params), bound))
  {
    var s, n, ds := BindPayload(q), |q.params|, Datums(q.params);
    var d := WriteRow(ds) + WriteU16(1) + WriteU16(q.resultFormat);
    var head := q.portal + [0] + q.statement + [0] + WriteU16(n);
    var f := Formats(q.params);
    BindSplits(head, f, WriteRow(ds), WriteU16(1), WriteU16(q.resultFormat));
    DatumsFit(q.params);
    BoundRead(d, ds, q.resultFormat);
    BindRead(s, q.portal, q.statement, q.params, d, Bound(ds, q.resultFormat));
  }

  lemma BindSplits(a: bytes, b: bytes, c: bytes, d: bytes, e: bytes)
    ensures a + b + c + d + e == a + (b + (c + d + e))
  {
  }

  /** The messages a server needs to see for `q`, in this order and no others. */
  predicate Conveys(fs: seq<Frame>, q: Extended) {
    if q.skipParse then ConveysBound(fs, q)
    else
      && fs != [] && fs[0].kind == 'P' as int
      && ReadParse(fs[0].payload) == Some(Parse(q.statement, q.query, OidsOf(q.params)))
      && ConveysBound(fs[1..], q)
  }

  predicate ConveysBound(fs: seq<Frame>, q: Extended) {
    |fs| == 4 && IsBind(fs[0], q) && IsDescribe(fs[1], q) && IsExecute(fs[2], q) && fs[3] == Frame('S' as int, [])
  }

  predicate IsBind(f: Frame, q: Extended) {
    && f.kind == 'B' as int
    && BindSays(f.payload, Bind(q.portal, q.statement, FormatsOf(q.params), Bound(Datums(q.params), q.resultFormat)))
  }

  predicate IsDescribe(f: Frame, q: Extended) {
    f.kind == 'D' as int && ReadDescribe(f.payload) == Some(q.portal)
  }

  predicate IsExecute(f: Frame, q: Extended) {
    f.kind == 'E' as int && ReadExecute(f.payload) == Some(Execute(q.portal, 0))
  }

  /** Framing the output of an extended query gives exactly [P] B D E S, with
      nothing left over, and the payloads give everything back. */
  lemma ExtendedRoundTrip(q: Extended)
    requires Sendable(q) && AllFit(ExtendedFrames(q))
    ensures var (fs, rest) := Walk(EncodeAll(ExtendedFrames(q))); rest == [] && Conveys(fs, q)
  {
    var fs := ExtendedFrames(q);
    WalkEncodeAll(fs, []);
    assert EncodeAll(fs) + [] == EncodeAll(fs);
    FramesConvey(q);
  }

  lemma BindIsRead(q: Extended)
    requires Sendable(q)
    ensures IsBind(Frame('B' as int, BindPayload(q)), q)
  {
    BindRoundTrip(q);
  }

  lemma DescribeIsRead(q: Extended)
    requires Sendable(q)
    ensures IsDescribe(Frame('D' as int, DescribePayload(q)), q)
  {
    DescribeRoundTrip(q);
  }

  lemma ExecuteIsRead(q: Extended)
    requires Sendable(q)
    ensures IsExecute(Frame('E' as int, ExecutePayload(q)), q)
  {
    ExecuteRoundTrip(q);
  }

  lemma FourFrames(b: Frame, d: Frame, e: Frame, s: Frame, q: Extended)
    requires IsBind(b, q) && IsDescribe(d, q) && IsExecute(e, q) && s == Frame('S' as int, [])
    ensures ConveysBound([b, d, e, s], q)
  {
  }

  lemma BoundFramesConvey(q: Extended)
    requires Sendable(q)
    ensures ConveysBound(BoundFrames(q), q)
  {
    var fs := BoundFrames(q);
    BindIsRead(q);
    DescribeIsRead(q);
    ExecuteIsRead(q);
    FourFrames(fs[0], fs[1], fs[2], fs[3], q);
  }

  lemma FramesConvey(q: Extended)
    requires Sendable(q)
    ensures Conveys(ExtendedFrames(q), q)
  {
    BoundFramesConvey(q);
    if q.skipParse {
      assert ExtendedFrames(q) == BoundFrames(q);
    } else {
      ParseRoundTrip(q);
      assert ExtendedFrames(q)[1..] == BoundFrames(q);
    }
  }

  lemma DescribeRoundTrip(q: Extended)
    requires NulFree(q.portal)
    ensures ReadDescribe(DescribePayload(q)) == Some(q.portal)
  {
    var s := DescribePayload(q);
    assert s[1..] == q.portal + [0] + [];
    StringAt(s, 1, q.portal, []);
  }

  lemma ExecuteRoundTrip(q: Extended)
    requires NulFree(q.portal)
    ensures ReadExecute(ExecutePayload(q)) == Some(Execute(q.portal, 0))
  {
    var s := ExecutePayload(q);
    StringAt(s, 0, q.portal, WriteU32(0));
    assert WriteU32(0) == WriteU32(0) + [];
    U32At(s, |q.portal| + 1, 0, []);
  }

  // ---- the other messages ----

  lemma ScanUntyped(body: bytes)
    requires 4 + |body| < TWO_32
    ensures var s := Untyped(body); ReadU32(s, 0) == |s| && ScanStartup(s) == StartupFrame(body)
  {
    var s, len := Untyped(body), WriteU32(4 + |body|);
    assert s == [] + len + body;
    ReadWriteFitting([], 4 + |body|, body);
    assert s[4..] == body;
  }

  lemma CutUntyped(body: bytes, cut: bytes)
    requires 4 + |body| < TWO_32 && cut < Untyped(body)
    ensures ScanStartup(cut) == StartupShort
  {
    if |cut| >= 4 {
      ScanUntyped(body);
      BigEndian(cut, 0);
      BigEndian(Untyped(body), 0);
    }
  }

  /** Reads names and values up to an empty name, which has to be the end. */
  function ReadPairs(s: bytes, at: nat): Option<Pairs>
    requires at <= |s|
    decreases |s| - at
  {
    var key := ReadCString(s, at);
    if key.NoNul? then None
    else if key.text == [] then (if key.next == |s| then Some([]) else None)
    else
      var value := ReadCString(s, key.next);
      if value.NoNul? then None
      else
        var rest := ReadPairs(s, value.next);
        if rest.None? then None else Some([(key.text, value.text)] + rest.value)
  }

  predicate PairsFit(kvs: Pairs) {
    forall k | 0 <= k < |kvs| :: kvs[k].0 != [] && NulFree(kvs[k].0) && NulFree(kvs[k].1)
  }

  lemma ReadPairsStep(s: bytes, at: nat, kvs: Pairs, mid: nat, next: nat)
    requires kvs != [] && kvs[0].0 != []
    requires at <= |s| && ReadCString(s, at) == CString(kvs[0].0, mid) && ReadCString(s, mid) == CString(kvs[0].1, next)
    ensures ReadPairs(s, next) == Some(kvs[1..]) ==> ReadPairs(s, at) == Some(kvs)
  {
    assert [(kvs[0].0, kvs[0].1)] + kvs[1..] == kvs;
  }

  lemma PairsBytesStep(kvs: Pairs)
    requires kvs != []
    ensures PairsBytes(kvs) + [0] == kvs[0].0 + [0] + kvs[0].1 + [0] + (PairsBytes(kvs[1..]) + [0])
  {
    Assoc(PairBytes(kvs[0]), PairsBytes(kvs[1..]), [0]);
  }

  lemma NextPair(s: bytes, at: nat, kvs: Pairs) returns (next: nat)
    requires at <= |s| && s[at..] == PairsBytes(kvs) + [0] && PairsFit(kvs) && kvs != []
    ensures next <= |s| && s[next..] == PairsBytes(kvs[1..]) + [0]
    ensures ReadPairs(s, next) == Some(kvs[1..]) ==> ReadPairs(s, at) == Some(kvs)
  {
    var k, v := kvs[0].0, kvs[0].1;
    PairsBytesStep(kvs);
    TwoStringsAt(s, at, k, v, PairsBytes(kvs[1..]) + [0]);
    next := at + |k| + 1 + |v| + 1;
    ReadPairsStep(s, at, kvs, at + |k| + 1, next);
  }

  lemma {:induction false} PairsAt(s: bytes, at: nat, kvs: Pairs)
    requires at <= |s| && s[at..] == PairsBytes(kvs) + [0] && PairsFit(kvs)
    ensures ReadPairs(s, at) == Some(kvs)
    decreases |kvs|
  {
    if kvs == [] {
      assert s[at..] == [] + [0] + [];
      StringAt(s, at, [], []);
    } else {
      var next := NextPair(s, at, kvs);
      PairsAt(s, next, kvs[1..]);
    }
  }

  lemma {:induction false} ExtraFits(kvs: Pairs)
    requires PairsFit(kvs)
    ensures PairsFit(Extra(kvs))
    ensures forall k | 0 <= k < |Extra(kvs)| :: Extra(kvs)[k].0 != USER && Extra(kvs)[k].0 != DATABASE
  {
    if kvs != [] {
      ExtraFits(kvs[1..]);
    }
  }

  /** A startup message is one untyped frame: the version, then the user, the
      database if there is one, and every other parameter, in order. */
  lemma StartupRoundTrip(r: Outgoing)
    requires r.startup && !r.disconnect && !r.cancel && !r.copy && !r.wait
    requires NulFree(r.user) && NulFree(r.db) && PairsFit(r.startupParams) && r.version < TWO_32
    requires |Output(r)| < TWO_32
    ensures var s := Output(r);
            && ReadU32(s, 0) == |s| && ScanStartup(s).StartupFrame?
            && var body := ScanStartup(s).body;
               && |body| >= 4 && ReadU32(body, 0) == r.version
               && ReadPairs(body, 4) == Some(StartupPairs(r.user, r.db, r.startupParams))
  {
    var kvs := StartupPairs(r.user, r.db, r.startupParams);
    var rest := PairsBytes(kvs) + [0];
    var body := WriteU32(r.version) + rest;
    ScanUntyped(body);
    U32At(body, 0, r.version, rest);
    ExtraFits(r.startupParams);
    NamesAreText();
    PairsAt(body, 4, kvs);
  }

  /** Who asks for what, as a server reads it: the user, the database if there is
      one, and the other parameters, none lost and none twice. */
  ghost predicate NamesUser(kvs: Pairs, r: Outgoing) {
    var fixed := [(Text("user"), r.user)] + if r.db == [] then [] else [(Text("database"), r.db)];
    && fixed <= kvs
    && forall kv :: multiset(kvs[|fixed|..])[kv]
                    == if kv.0 == Text("user") || kv.0 == Text("database") then 0 else multiset(r.startupParams)[kv]
  }

  lemma {:induction false} ExtraKeeps(kvs: Pairs, kv: (bytes, bytes))
    ensures multiset(Extra(kvs))[kv]
         == if kv.0 == Text("user") || kv.0 == Text("database") then 0 else multiset(kvs)[kv]
  {
    if kvs != [] {
      ExtraKeeps(kvs[1..], kv);
      assert kvs == [kvs[0]] + kvs[1..];
    }
  }

  lemma StartupNamesUser(r: Outgoing)
    ensures NamesUser(StartupPairs(r.user, r.db, r.startupParams), r)
  {
    var fixed := [(Text("user"), r.user)] + if r.db == [] then [] else [(Text("database"), r.db)];
    assert StartupPairs(r.user, r.db, r.startupParams) == fixed + Extra(r.startupParams);
    assert (fixed + Extra(r.startupParams))[|fixed|..] == Extra(r.startupParams);
    forall kv: (bytes, bytes)
      ensures multiset(Extra(r.startupParams))[kv]
           == if kv.0 == Text("user") || kv.0 == Text("database") then 0 else multiset(r.startupParams)[kv]
    {
      ExtraKeeps(r.startupParams, kv);
    }
  }

  lemma NamesAreText()
    ensures USER != [] && NulFree(USER) && DATABASE != [] && NulFree(DATABASE)
  {
    assert |USER| == 4 && |DATABASE| == 8;
  }

  /** The other two messages without a type byte are told from a startup by their
      first word: a request for TLS holds nothing else, a cancel the process and
      the secret. */
  lemma SslRoundTrip()
    ensures var s := Untyped(WriteU32(SSL_REQUEST));
            && |s| == 8 && ReadU32(s, 0) == |s| && ScanStartup(s).StartupFrame?
            && var body := ScanStartup(s).body; |body| == 4 && ReadU32(body, 0) == 80877103
  {
    var body := WriteU32(SSL_REQUEST);
    ScanUntyped(body);
    assert body == body + [];
    U32At(body, 0, SSL_REQUEST, []);
  }

  lemma CancelRoundTrip(r: Outgoing)
    requires r.cancel && !r.disconnect && |Output(r)| < TWO_32
    ensures var s := Output(r);
            && ReadU32(s, 0) == |s| && ScanStartup(s).StartupFrame?
            && var body := ScanStartup(s).body;
               && |body| >= 8 && ReadU32(body, 0) == 80877102
               && ReadU32(body, 4) == r.cancelPid % TWO_32 && body[8..] == r.cancelSecret
  {
    var code, pid := WriteU32(CANCEL_REQUEST), WriteU32(r.cancelPid);
    var body := code + pid + r.cancelSecret;
    ScanUntyped(body);
    assert body == [] + code + (pid + r.cancelSecret);
    ReadWriteFitting([], CANCEL_REQUEST, pid + r.cancelSecret);
    ReadWriteU32(code, r.cancelPid, r.cancelSecret);
  }

  /** What a server collects from COPY frames: the data, and how it ended. */
  datatype Upload = Upload(data: bytes, done: bool, failure: Option<bytes>)

  /** Data frames, and at most one end or failure behind them; nothing else. */
  function Collect(fs: seq<Frame>): Option<Upload> {
    if fs == [] then Some(Upload([], false, None))
    else if fs[0].kind == 'd' as int then
      match Collect(fs[1..])
      case None => None
      case Some(rest) => Some(rest.(data := fs[0].payload + rest.data))
    else if |fs| > 1 then None
    else if fs[0].kind == 'c' as int then Some(Upload([], true, None))
    else if fs[0].kind == 'f' as int then
      var reason := ReadCString(fs[0].payload, 0);
      if reason.NoNul? then None else Some(Upload([], false, Some(reason.text)))
    else None
  }

  lemma CollectFrames(fail: bool, done: bool, data: bytes)
    requires fail ==> NulFree(data)
    ensures Collect(CopyFrames(fail, done, data))
         == Some(if fail then Upload([], false, Some(data)) else Upload(data, done, None))
  {
    if fail {
      StringAt(data + [0], 0, data, []);
    } else {
      var end := if done then [Frame('c' as int, [])] else [];
      assert Collect(end) == Some(Upload([], done, None));
      assert data != [] ==> CopyFrames(fail, done, data)[1..] == end && data + [] == data;
    }
  }

  /** The frames of a COPY request say what was asked for, and nothing is left
      over; a request with neither data nor an end sends nothing. */
  lemma CopyRoundTrip(fail: bool, done: bool, data: bytes)
    requires |data| < TWO_32 - 10 && (fail ==> NulFree(data))
    ensures var (fs, rest) := Walk(EncodeAll(CopyFrames(fail, done, data)));
            && rest == []
            && Collect(fs) == Some(if fail then Upload([], false, Some(data)) else Upload(data, done, None))
    ensures EncodeAll(CopyFrames(fail, done, data)) == [] <==> !fail && !done && data == []
  {
    var fs := CopyFrames(fail, done, data);
    WalkEncodeAll(fs, []);
    assert EncodeAll(fs) + [] == EncodeAll(fs);
    CollectFrames(fail, done, data);
  }

  /** A simple query is one 'Q' frame that gives the text back. */
  lemma SimpleRoundTrip(query: bytes)
    requires NulFree(query) && |query| < TWO_32 - 10
    ensures var (fs, rest) := Walk(EncodeAll([Frame('Q' as int, query + [0])]));
            && rest == [] && |fs| == 1 && fs[0].kind == 'Q' as int
            && ReadCString(fs[0].payload, 0) == CString(query, |fs[0].payload|)
  {
    var fs := [Frame('Q' as int, query + [0])];
    WalkEncodeAll(fs, []);
    assert EncodeAll(fs) + [] == EncodeAll(fs);
    assert (query + [0])[0..] == query + [0] + [];
    StringAt(query + [0], 0, query, []);
  }

  // ---- what a request delivers ----

  /** What a server learns from the bytes `s` sent for a request: a disconnect goes
      before a cancel, that before COPY, a notification wait sends nothing, and
      parameters make the query an extended one.  Texts have to be free of NUL and
      numbers to fit their fields. */
  ghost predicate Delivers(r: Outgoing, s: bytes) {
    if r.disconnect then Walk(s) == ([Frame('X' as int, [])], [])
    else if r.cancel then DeliversCancel(r, s)
    else if r.copy then DeliversCopy(r, s)
    else if r.wait then s == []
    else if r.startup then DeliversStartup(r, s)
    else if r.hasParams then Sendable(r.extended) ==> Walk(s).1 == [] && Conveys(Walk(s).0, r.extended)
    else NulFree(r.extended.query) ==> DeliversText(r.extended.query, s)
  }

  predicate DeliversCancel(r: Outgoing, s: bytes) {
    && |s| >= 12 && ReadU32(s, 0) == |s|
    && ReadU32(s, 4) == 80877102 && ReadU32(s, 8) == r.cancelPid % TWO_32 && s[12..] == r.cancelSecret
  }

  predicate DeliversCopy(r: Outgoing, s: bytes) {
    (r.copyFail ==> NulFree(r.copyData)) ==>
      && Walk(s).1 == []
      && Collect(Walk(s).0)
         == Some(if r.copyFail then Upload([], false, Some(r.copyData)) else Upload(r.copyData, r.copyDone, None))
  }

  ghost predicate DeliversStartup(r: Outgoing, s: bytes) {
    NulFree(r.user) && NulFree(r.db) && PairsFit(r.startupParams) && r.version < TWO_32 ==>
      && |s| >= 8 && ReadU32(s, 0) == |s| && ReadU32(s, 4) == r.version
      && var kvs := ReadPairs(s, 8); kvs.Some? && NamesUser(kvs.value, r)
  }

  predicate DeliversText(query: bytes, s: bytes) {
    var (fs, rest) := Walk(s);
    && rest == [] && |fs| == 1 && fs[0].kind == 'Q' as int
    && ReadCString(fs[0].payload, 0) == CString(query, |fs[0].payload|)
  }

  lemma {:induction false} AllFitIn(fs: seq<Frame>)
    requires |EncodeAll(fs)| < TWO_32 - 1
    ensures AllFit(fs)
  {
    if fs != [] {
      AllFitIn(fs[1..]);
      assert forall i | 0 < i < |fs| :: fs[i] == fs[1..][i - 1];
    }
  }

  lemma WalkOutput(fs: seq<Frame>)
    requires |EncodeAll(fs)| < TWO_32 - 1
    ensures AllFit(fs) && Walk(EncodeAll(fs)) == (fs, [])
  {
    AllFitIn(fs);
    WalkEncodeAll(fs, []);
    assert EncodeAll(fs) + [] == EncodeAll(fs);
  }

  lemma CancelDelivers(r: Outgoing, s: bytes)
    requires s == Untyped(WriteU32(CANCEL_REQUEST) + WriteU32(r.cancelPid) + r.cancelSecret) && |s| < TWO_32
    ensures DeliversCancel(r, s)
  {
    var len, code, pid := WriteU32(|s|), WriteU32(CANCEL_REQUEST), WriteU32(r.cancelPid);
    assert s == [] + len + (code + pid + r.cancelSecret);
    assert s == len + code + (pid + r.cancelSecret);
    assert s == (len + code) + pid + r.cancelSecret;
    ReadWriteFitting([], |s|, code + pid + r.cancelSecret);
    ReadWriteFitting(len, CANCEL_REQUEST, pid + r.cancelSecret);
    ReadWriteU32(len + code, r.cancelPid, r.cancelSecret);
  }

  lemma StartupDelivers(r: Outgoing, s: bytes)
    requires s == Untyped(WriteU32(r.version) + (PairsBytes(StartupPairs(r.user, r.db, r.startupParams)) + [0]))
    requires |s| < TWO_32
    ensures DeliversStartup(r, s)
  {
    if NulFree(r.user) && NulFree(r.db) && PairsFit(r.startupParams) && r.version < TWO_32 {
      var kvs := StartupPairs(r.user, r.db, r.startupParams);
      var len, version, pairs := WriteU32(|s|), WriteU32(r.version), PairsBytes(kvs) + [0];
      assert s == [] + len + (version + pairs);
      assert s == len + version + pairs;
      ReadWriteFitting([], |s|, version + pairs);
      ReadWriteFitting(len, r.version, pairs);
      assert s[8..] == pairs;
      ExtraFits(r.startupParams);
      NamesAreText();
      PairsAt(s, 8, kvs);
      StartupNamesUser(r);
    }
  }

  lemma CopyDelivers(r: Outgoing)
    requires |EncodeAll(CopyFrames(r.copyFail, r.copyDone, r.copyData))| < TWO_32 - 1
    ensures DeliversCopy(r, EncodeAll(CopyFrames(r.copyFail, r.copyDone, r.copyData)))
  {
    WalkOutput(CopyFrames(r.copyFail, r.copyDone, r.copyData));
    if r.copyFail ==> NulFree(r.copyData) {
      CollectFrames(r.copyFail, r.copyDone, r.copyData);
    }
  }

  lemma TextDelivers(query: bytes)
    requires NulFree(query) && |EncodeAll([Frame('Q' as int, query + [0])])| < TWO_32 - 1
    ensures DeliversText(query, EncodeAll([Frame('Q' as int, query + [0])]))
  {
    WalkOutput([Frame('Q' as int, query + [0])]);
    assert (query + [0])[0..] == query + [0] + [];
    StringAt(query + [0], 0, query, []);
  }

  /** Whatever flags and fields are set, what is sent delivers the request. */
  lemma OutputDelivers(r: Outgoing)
    requires |Output(r)| < TWO_32 - 1
    ensures Delivers(r, Output(r))
  {
    if r.disconnect {
      WalkOutput([Frame('X' as int, [])]);
    } else if r.cancel {
      CancelDelivers(r, Output(r));
    } else if r.copy {
      CopyDelivers(r);
    } else if r.wait {
    } else if r.startup {
      StartupDelivers(r, Output(r));
    } else if r.hasParams {
      WalkOutput(ExtendedFrames(r.extended));
      if Sendable(r.extended) {
        FramesConvey(r.extended);
      }
    } else if NulFree(r.extended.query) {
      TextDelivers(r.extended.query);
    }
  }
}
