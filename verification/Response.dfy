/** The frame-driven response machine. */
module Response {
  import opened Wrappers
  import opened Wire
  import opened Framing
  import opened Parser
  import opened Transaction

  /** Authentication is one deterministic step: what it does with a request may
      depend on every authentication payload received so far. */
  datatype AuthOutcome = Proceed(feedback: Option<bytes>) | Reject(message: bytes, internal: Option<int>)

  type AuthOracle = seq<bytes> -> AuthOutcome

  /** What a response has learned from the frames it has seen. */
  datatype Reply = Reply(
    isError: bool, error: ErrorInfo, isStartup: bool, notifyMode: bool,
    copyIn: bool, copyOut: bool, backendKey: BackendKeyData, tx: byte, ready: bool,
    parameters: map<bytes, bytes>, notifications: seq<Notify>, notices: seq<ErrorInfo>,
    version: nat, options: seq<bytes>, internalError: int,
    authSeen: seq<bytes>, sent: seq<bytes>)

  function Fatal(r: Reply, message: bytes): Reply {
    r.(isError := true, error := r.error.(severity := Text("FATAL"), message := message))
  }

  const BAD_LENGTH := Text("Invalid frame length < 4")

  function ApplyAuth(auth: AuthOracle, r: Reply, payload: bytes): (Reply, bool) {
    var r := r.(authSeen := r.authSeen + [payload]);
    match auth(r.authSeen)
    case Proceed(None) => (r, false)
    case Proceed(Some(bs)) => (r.(sent := r.sent + [bs]), false)
    case Reject(message, internal) =>
      var r := Fatal(r, message);
      (if internal.Some? then r.(internalError := internal.value) else r, true)
  }

  /** One event: the new reply, and whether the response ends here. */
  function Apply(auth: AuthOracle, r: Reply, event: Event, payload: bytes): (Reply, bool) {
    match event
    case Error => (r.(isError := true, error := ErrorFields(payload, 0, r.error)), r.isStartup)
    case ParameterStatus => (r.(parameters := ParameterStatusOf(payload, r.parameters)), false)
    case NegotiateProtocol =>
      if |payload| < 8 then (r, false)
      else (r.(version := ReadU32(payload, 0),
               options := r.options + Options(payload, 8, ReadU32(payload, 4))), false)
    case BackendKey => (r.(backendKey := BackendKeyOf(payload, r.backendKey)), false)
    case Notification =>
      var n := NotificationOf(payload);
      (if n.Some? then r.(notifications := r.notifications + [n.value]) else r, r.notifyMode)
    case Notice => (r.(notices := r.notices + [ErrorFields(payload, 0, NO_ERROR)]), false)
    case Auth => ApplyAuth(auth, r, payload)
    case Ready =>
      var tx := ReadyByteOf(payload, r.tx);
      (r.(tx := tx, ready := |payload| == 1 && IsTxState(tx)), true)
    case CopyIn => (r.(copyIn := true), true)
    case CopyOut => (r.(copyOut := true), false)
    case _ => (r, false)
  }

  /** What a frame does to a reply. */
  type Step = (Reply, Frame) -> (Reply, bool)

  function StepOf(auth: AuthOracle): Step {
    (r: Reply, f: Frame) => Apply(auth, r, EventOf(f.kind), f.payload)
  }

  // ---- the reference: a fold over a list of frames ----

  /** The reply after the frames up to and including the first finishing one,
      how many frames that is, and whether there was a finishing one. */
  function Run(step: Step, r: Reply, fs: seq<Frame>): (res: (Reply, nat, bool))
    ensures res.1 <= |fs|
    ensures !res.2 ==> res.1 == |fs|
    ensures res.2 ==> res.1 > 0
    decreases |fs|
  {
    if fs == [] then (r, 0, false)
    else
      var (r', finished) := step(r, fs[0]);
      if finished then (r', 1, true)
      else
        var (r'', n, last) := Run(step, r', fs[1..]);
        (r'', n + 1, last)
  }

  // ---- the machine on bytes ----

  datatype Verdict = Pending | Finished | Overrun

  datatype Drained = Drained(reply: Reply, used: nat, verdict: Verdict)
  {
    function After(n: nat): Drained {
      this.(used := n + used)
    }
  }

  /** The frame loop of one `append`, on the unread bytes.  `Overrun`: a length
      of 0xFFFFFFFF was met, beyond which nothing is modelled. */
  function Drain(step: Step, r: Reply, s: bytes): (d: Drained)
    ensures d.used <= |s|
    decreases |s|
  {
    var scan := Scan(s);
    match scan
    case Short => Drained(r, 0, Pending)
    case Wrapped(_) => Drained(r, 0, Overrun)
    case Malformed(_) => Drained(Fatal(r, BAD_LENGTH), 5, Finished)
    case Complete(f) =>
      var (r', finished) := step(r, f);
      if finished then Drained(r', scan.Size(), Finished)
      else
        Drain(step, r', s[scan.Size()..]).After(scan.Size())
  }

  /** The loop gets through the bytes without meeting the length 0xFFFFFFFF. */
  predicate Passable(step: Step, r: Reply, s: bytes) {
    !Drain(step, r, s).verdict.Overrun?
  }

  /** The receive buffer is `seen + unread`, with the cursor between the two. */
  datatype Receiver = Receiver(reply: Reply, seen: bytes, unread: bytes)
  {
    /** Between calls no complete frame is left unread. */
    predicate Resting() {
      Scan(unread).Short?
    }
  }

  /** One `append`: the receiver afterwards, the number reported through
      `*size`, and whether 1 was returned. */
  datatype Fed = Fed(after: Receiver, size: int, verdict: Verdict)

  function Feed(step: Step, st: Receiver, data: bytes): Fed {
    var s := st.unread + data;
    Settle(st, s, |data|, Drain(step, st.reply, s))
  }

  /** The end of a call that found `d` in the unread bytes `s`: on a finish
      the bytes read too far are taken back and dropped. */
  function Settle(st: Receiver, s: bytes, size: nat, d: Drained): Fed
    requires d.used <= |s|
  {
    var seen := st.seen + s[..d.used];
    if d.verdict.Finished? then Fed(Receiver(d.reply, seen, []), size - |s[d.used..]|, Finished)
    else Fed(Receiver(d.reply, seen, s[d.used..]), size, d.verdict)
  }

  /** Feeding chunks until a call returns 1, or until they run out; sizes add up. */
  function FeedAll(step: Step, st: Receiver, chunks: seq<bytes>): Fed
    decreases |chunks|
  {
    if chunks == [] then Fed(st, 0, Pending)
    else
      var f := Feed(step, st, chunks[0]);
      if !f.verdict.Pending? then f
      else
        var g := FeedAll(step, f.after, chunks[1..]);
        g.(size := f.size + g.size)
  }

  function Concat(chunks: seq<bytes>): bytes {
    if chunks == [] then [] else chunks[0] + Concat(chunks[1..])
  }

  /** The response object: the receive buffer with its cursor, and the fields
      the frames fill in. */
  class PostgresResponse {
    const auth: AuthOracle
    const stream: PostgresStream
    var reply: Reply

    ghost predicate Valid()
      reads this, stream
    {
      stream.Valid() && stream.owned
    }

    function State(): Receiver
      requires Valid()
      reads this, stream
    {
      Receiver(reply, stream.Seen(), stream.Unread())
    }

    constructor (auth: AuthOracle)
      ensures Valid() && fresh(stream) && this.auth == auth
      ensures State() == Receiver(FreshReply(), [], [])
    {
      this.auth := auth;
      stream := new PostgresStream();
      reply := FreshReply();
    }

    /** Forgets the last exchange; the transaction byte, the key data, the modes
        and the authentication state stay. */
    method ClearBuffer()
      requires Valid()
      modifies this, stream
      ensures Valid()
      ensures State() == Receiver(Cleared(old(reply)), [], [])
    {
      stream.Clear();
      reply := reply.(isError := false, copyIn := false, copyOut := false, ready := false);
      reply := reply.(error := NO_ERROR, version := 0, options := [], internalError := 0);
      reply := reply.(notices := [], notifications := [], parameters := map[]);
    }

    method SetErrorFatal(message: bytes)
      modifies this`reply
      ensures reply == Fatal(old(reply), message)
    {
      reply := reply.(isError := true);
      reply := reply.(error := reply.error.(severity := Text("FATAL"), message := message));
    }

    method ProcessAuth(payload: bytes) returns (failed: bool)
      modifies this`reply
      ensures (reply, failed) == ApplyAuth(auth, old(reply), payload)
    {
      reply := reply.(authSeen := reply.authSeen + [payload]);
      match auth(reply.authSeen) {
        case Proceed(None) =>
        case Proceed(Some(bs)) => reply := reply.(sent := reply.sent + [bs]);
        case Reject(message, internal) =>
          SetErrorFatal(message);
          if internal.Some? {
            reply := reply.(internalError := internal.value);
          }
          return true;
      }
      return false;
    }

    /** What a frame reports: every event but ReadyForQuery and the COPY responses. */
    method Absorb(event: Event, payload: bytes) returns (finished: bool)
      requires !event.Ready? && !event.CopyIn? && !event.CopyOut?
      modifies this`reply
      ensures (reply, finished) == Apply(auth, old(reply), event, payload)
    {
      match event {
        case Error =>
          var error := ParseErrorResponse(payload, reply.error);
          reply := reply.(isError := true, error := error);
          if reply.isStartup {
            return true;
          }
        case ParameterStatus =>
          reply := reply.(parameters := ParameterStatusOf(payload, reply.parameters));
        case NegotiateProtocol =>
          var version, options := ParseNegotiation(payload, reply.version, reply.options);
          reply := reply.(version := version, options := options);
        case BackendKey => reply := reply.(backendKey := BackendKeyOf(payload, reply.backendKey));
        case Notification =>
          var n := NotificationOf(payload);
          if n.Some? {
            reply := reply.(notifications := reply.notifications + [n.value]);
          }
          if reply.notifyMode {
            return true;
          }
        case Notice =>
          var notice := ParseErrorResponse(payload, NO_ERROR);
          reply := reply.(notices := reply.notices + [notice]);
        case Auth =>
          var failed := ProcessAuth(payload);
          return failed;
        case _ =>
      }
      return false;
    }

    /** The body of the frame loop. */
    method Handle(event: Event, payload: bytes) returns (finished: bool)
      modifies this`reply
      ensures (reply, finished) == Apply(auth, old(reply), event, payload)
    {
      if event.Ready? {
        var tx := ReadyByteOf(payload, reply.tx);
        reply := reply.(tx := tx, ready := |payload| == 1 && IsTxState(tx));
        return true;
      }
      if event.CopyIn? {
        reply := reply.(copyIn := true);
        return true;
      } else if event.CopyOut? {
        reply := reply.(copyOut := true);
        return false;
      }
      finished := Absorb(event, payload);
    }

    /** One turn of the frame loop: `more` when it goes on. */
    method ReadFrame() returns (more: bool, finished: bool, ghost n: nat)
      requires Valid() && !Scan(stream.Unread()).Wrapped?
      modifies this`reply, stream`cursor
      ensures Valid() && n == Scan(old(stream.Unread())).Size() <= |old(stream.Unread())|
      ensures stream.Seen() == old(stream.Seen()) + old(stream.Unread())[..n]
      ensures stream.Unread() == old(stream.Unread())[n..]
      ensures more ==> n > 0 && !finished
      ensures Drain(StepOf(auth), old(reply), old(stream.Unread()))
           == if more then Drain(StepOf(auth), reply, stream.Unread()).After(n)
              else Drained(reply, n, if finished then Finished else Pending)
    {
      var scan := stream.NextFrame();
      n := scan.Size();
      match scan {
        case Short => return false, false, n;
        case Wrapped(_) => assert false;
        case Malformed(_) =>
          SetErrorFatal(BAD_LENGTH);
          return false, true, n;
        case Complete(f) =>
          finished := Handle(EventOf(f.kind), f.payload);
          return !finished, finished, n;
      }
    }

    /** The same turn, seen from a buffer `pre + s` of which `used` bytes of `s`
        are behind the cursor. */
    method Turn(ghost pre: bytes, ghost s: bytes, ghost used: nat)
      returns (more: bool, finished: bool, ghost used': nat)
      requires Valid() && used <= |s| && Passable(StepOf(auth), reply, s[used..])
      requires stream.Seen() == pre + s[..used] && stream.Unread() == s[used..]
      modifies this`reply, stream`cursor
      ensures Valid() && used <= used' <= |s| && (more ==> used < used')
      ensures stream.Seen() == pre + s[..used'] && stream.Unread() == s[used'..]
      ensures more ==> Passable(StepOf(auth), reply, s[used'..])
      ensures Drain(StepOf(auth), old(reply), s[used..])
           == if more then Drain(StepOf(auth), reply, s[used'..]).After(used' - used)
              else Drained(reply, used' - used, if finished then Finished else Pending)
    {
      ghost var n;
      more, finished, n := ReadFrame();
      FrontGrows(pre, s, used, n);
      used' := used + n;
    }

    /** The frame loop, up to a finishing frame or the end of the whole frames. */
    method ReadFrames() returns (finished: bool, ghost d: Drained)
      requires Valid() && Passable(StepOf(auth), reply, stream.Unread())
      modifies this`reply, stream`cursor
      ensures Valid() && d == Drain(StepOf(auth), old(reply), old(stream.Unread()))
      ensures d.reply == reply && d.verdict == if finished then Finished else Pending
      ensures stream.Seen() == old(stream.Seen()) + old(stream.Unread())[..d.used]
      ensures stream.Unread() == old(stream.Unread())[d.used..]
    {
      ghost var pre, s := stream.Seen(), stream.Unread();
      ghost var used: nat := 0;
      d := Drain(StepOf(auth), reply, s);
      var more := true;
      finished := false;
      while more
        invariant Valid() && used <= |s| && (more ==> Passable(StepOf(auth), reply, s[used..]))
        invariant stream.Seen() == pre + s[..used] && stream.Unread() == s[used..]
        invariant more ==> d == Drain(StepOf(auth), reply, s[used..]).After(used)
        invariant !more ==> d == Drained(reply, used, if finished then Finished else Pending)
        decreases more, |s| - used
      {
        more, finished, used := Turn(pre, s, used);
      }
    }

    /** Takes one chunk.  Nothing is promised when the loop meets the length
        0xFFFFFFFF before a finishing frame: it need not end then. */
    method Append(data: bytes) returns (ret: int, size: int)
      requires Valid() && Passable(StepOf(auth), reply, stream.Unread() + data)
      modifies this`reply, stream
      ensures Valid()
      ensures var fed := Feed(StepOf(auth), old(State()), data);
              State() == fed.after && size == fed.size &&
              ret == (if fed.verdict.Finished? then 1 else 0) && !fed.verdict.Overrun?
    {
      stream.Append(data);
      var finished, d := ReadFrames();
      if finished {
        var overRead := stream.BufferedSize();
        stream.TruncateUnconsumed();
        return 1, |data| - overRead;
      }
      return 0, |data|;
    }

    method GetCopyData() returns (rows: seq<bytes>)
      requires WrapFree(stream.buf)
      ensures rows == if reply.copyOut then CopyRows(stream.buf) else []
    {
      if !reply.copyOut {
        return [];
      }
      rows := ReadCopyRows(stream.buf);
    }

    method IsCopyDone() returns (ended: bool)
      requires WrapFree(stream.buf)
      ensures ended == (reply.copyOut && CopyEnded(stream.buf))
    {
      if !reply.copyOut {
        return false;
      }
      ended := FindCopyEnd(stream.buf);
    }
  }

  // ---- COPY OUT, read from the finished buffer ----

  /** The CopyData payloads up to the end of the first COPY. */
  function CopyRows(s: bytes): seq<bytes>
    decreases |s|
  {
    match Scan(s)
    case Complete(f) =>
      var rest := s[Scan(s).Size()..];
      (match EventOf(f.kind)
       case CopyData => [f.payload] + CopyRows(rest)
       case CopyDone => []
       case CommandComplete => []
       case Ready => []
       case _ => CopyRows(rest))
    case _ => []
  }

  /** Whether a CopyDone or ReadyForQuery is met before anything malformed. */
  predicate CopyEnded(s: bytes)
    decreases |s|
  {
    match Scan(s)
    case Complete(f) => EventOf(f.kind) in {CopyDone, Ready} || CopyEnded(s[Scan(s).Size()..])
    case _ => false
  }

  lemma CopyRowsAt(s: bytes, f: Frame, rest: bytes)
    requires Scan(s) == Complete(f) && rest == s[Scan(s).Size()..]
    ensures CopyRows(s) == match EventOf(f.kind)
                           case CopyData => [f.payload] + CopyRows(rest)
                           case CopyDone => []
                           case CommandComplete => []
                           case Ready => []
                           case _ => CopyRows(rest)
  {
  }

  lemma CopyRowsStep(rows: seq<bytes>, s: bytes, f: Frame, rest: bytes)
    requires Scan(s) == Complete(f) && rest == s[Scan(s).Size()..]
    ensures var event := EventOf(f.kind);
            rows + CopyRows(s)
            == if event.CopyData? then rows + [f.payload] + CopyRows(rest)
               else if event.CopyDone? || event.CommandComplete? || event.Ready? then rows
               else rows + CopyRows(rest)
  {
    CopyRowsAt(s, f, rest);
    if EventOf(f.kind).CopyData? {
      Assoc(rows, [f.payload], CopyRows(rest));
    }
  }

  method ReadCopyRows(buf: bytes) returns (rows: seq<bytes>)
    requires WrapFree(buf)
    ensures rows == CopyRows(buf)
  {
    rows := [];
    var at := 0;
    assert buf[0..] == buf && [] + CopyRows(buf) == CopyRows(buf);
    while true
      invariant at <= |buf| && WrapFree(buf[at..]) && rows + CopyRows(buf[at..]) == CopyRows(buf)
      decreases |buf| - at
    {
      ghost var s := buf[at..];
      var scan, next := ReadFrame(buf, at);
      if !scan.Complete? {
        assert rows + [] == rows;
        return;
      }
      CopyRowsStep(rows, s, scan.frame, buf[next..]);
      var event := EventOf(scan.frame.kind);
      if event.CopyData? {
        rows := rows + [scan.frame.payload];
      } else if event.CopyDone? || event.CommandComplete? || event.Ready? {
        return;
      }
      at := next;
    }
  }

  method FindCopyEnd(buf: bytes) returns (ended: bool)
    requires WrapFree(buf)
    ensures ended == CopyEnded(buf)
  {
    var at := 0;
    assert buf[0..] == buf;
    while true
      invariant at <= |buf| && WrapFree(buf[at..]) && CopyEnded(buf[at..]) == CopyEnded(buf)
      decreases |buf| - at
    {
      var scan, next := ReadFrame(buf, at);
      if !scan.Complete? {
        return false;
      }
      if EventOf(scan.frame.kind) in {CopyDone, Ready} {
        return true;
      }
      at := next;
    }
  }

  function FreshReply(): Reply {
    Reply(false, NO_ERROR, false, false, false, false, BackendKeyData(0, 0, []), 'I' as int, false,
          map[], [], [], 0, [], 0, [], [])
  }

  function Cleared(r: Reply): Reply {
    r.(isError := false, copyIn := false, copyOut := false, ready := false, error := NO_ERROR,
       version := 0, options := [], internalError := 0, notices := [], notifications := [], parameters := map[])
  }

  /** A cleared response is a new one but for what it keeps, and a new one knows
      nothing. */
  lemma ClearedIsFresh(r: Reply)
    ensures Cleared(r) == FreshReply().(tx := r.tx, backendKey := r.backendKey, isStartup := r.isStartup,
                                        notifyMode := r.notifyMode, authSeen := r.authSeen, sent := r.sent)
    ensures var n := FreshReply();
            && !n.isError && !n.ready && !n.copyIn && !n.copyOut && !n.isStartup && !n.notifyMode && n.tx == 'I' as int
            && n.error == ErrorInfo([], [], [], [], [], []) && n.backendKey == BackendKeyData(0, 0, [])
            && n.notices == [] && n.notifications == [] && n.parameters == map[] && n.options == []
            && n.version == 0 && n.internalError == 0
  {
  }
}
