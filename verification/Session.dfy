/** What a task decides about one connection: the values behind the connection
    context, the logical route and the handle, and the functions on them. */
module Session {
  import opened Wrappers
  import opened Wire
  import opened Transaction

  // ---- the connection context ----

  datatype Protocol = Ready | CopyIn | NotifyWait | Broken

  /** `stage`: 1 TLS accepted, 2 TLS shaken, 3 started, 4 used by a request. */
  datatype Conn = Conn(stage: nat, protocol: Protocol, pid: int, key: int, secret: bytes)

  const STARTED := 3
  const USED := 4

  // ---- the route ----

  const NEW := 0
  const UNKNOWN := -1

  // ---- error numbers ----

  const EBADF := 9
  const EPROTO := 71
  const ECONNRESET := 104

  // ---- requests and answers, as far as the guard looks at them ----

  datatype Request = Request(copy: bool, copyDone: bool, copyFail: bool, wait: bool, disconnect: bool, cancel: bool)
  {
    /** How the setters leave the flags: a CopyDone or CopyFail is a COPY request. */
    predicate Built() {
      (copyDone ==> copy) && (copyFail ==> copy)
    }

    predicate CopyTask() {
      copy || copyDone || copyFail
    }

    predicate ToldToClose() {
      disconnect || cancel
    }
  }

  datatype Answer = Answer(isError: bool, internalError: int, copyIn: bool, ready: bool, tx: int,
                           pid: int, key: int, secret: bytes)
  {
    /** What every response machine guarantees of its fields. */
    predicate Sound() {
      (ready ==> IsTxState(tx)) && !(ready && copyIn)
    }
  }

  datatype TaskState = Success | SysError | TaskError | OtherError

  // ---- message_out ----

  datatype Guarded = Passed(conn: Option<Conn>) | Reset(route: int)

  /** On a freshly started connection of a fixed route whose session was used
      before, only a request that tolerates it may go on, and only from idle. */
  function CheckReconnect(guarded: bool, allowIdle: bool, route: int, conn: Option<Conn>): Guarded {
    if conn.Some? && conn.value.stage == STARTED then
      if guarded && route != NEW && !(allowIdle && route == IDLE) then Reset(UNKNOWN)
      else Passed(Some(conn.value.(stage := USED)))
    else Passed(conn)
  }

  datatype Validated = Valid(conn: Option<Conn>) | Invalid(error: int)

  function Validate(conn: Option<Conn>, req: Request): Validated {
    if conn.None? then Valid(conn)
    else
      match conn.value.protocol
      case Broken => Invalid(EBADF)
      case CopyIn => if !req.CopyTask() && !req.disconnect then Invalid(EPROTO) else Valid(conn)
      case NotifyWait => if !req.disconnect then Invalid(EPROTO) else Valid(conn)
      case Ready =>
        if req.CopyTask() then Invalid(EPROTO)
        else if req.wait then Valid(Some(conn.value.(protocol := NotifyWait)))
        else Valid(conn)
  }

  datatype Message = TlsRequest | Handshake | Startup | User | Refused(error: int)

  /** What `message_out` leaves behind. */
  datatype Sending = Sending(message: Message, conn: Option<Conn>, route: int, isUser: bool, started: bool)

  function MessageOut(ssl: bool, guarded: bool, seqNo: nat, conn: Option<Conn>, req: Request,
                      route: int, started: bool): Sending
  {
    if seqNo == 0 && !req.cancel && (conn.None? || (ssl && conn.value.stage < STARTED)) then
      Sending(if ssl then TlsRequest else Startup, conn, route, false, started)
    else if ssl && conn.Some? && conn.value.stage == 1 then Sending(Handshake, conn, route, false, started)
    else if ssl && conn.Some? && conn.value.stage == 2 then Sending(Startup, conn, route, false, started)
    else SendUser(guarded, conn, req, route, started)
  }

  function SendUser(guarded: bool, conn: Option<Conn>, req: Request, route: int, started: bool): Sending {
    match (if req.disconnect then Passed(conn)
           else CheckReconnect(guarded, !req.wait && !req.copy, route, conn))
    case Reset(route') => Sending(Refused(ECONNRESET), conn, route', true, started)
    case Passed(conn') =>
      match Validate(conn', req)
      case Invalid(error) => Sending(Refused(error), conn', route, true, started)
      case Valid(conn'') =>
        Sending(User, conn'', if guarded && !req.cancel && !req.disconnect then UNKNOWN else route, true, true)
  }

  /** A cancel goes out at once, on a connection without a startup, and leaves the
      route alone. */
  lemma CancelGoesFirst(ssl: bool, guarded: bool, seqNo: nat, req: Request, route: int, started: bool)
    requires req.cancel
    ensures MessageOut(ssl, guarded, seqNo, None, req, route, started) == Sending(User, None, route, true, true)
  {
  }

  /** A task that is not on a fixed route is not held back by it and leaves it alone. */
  lemma UnguardedIsFree(conn: Option<Conn>, req: Request, route: int, started: bool)
    ensures var s := SendUser(false, conn, req, route, started);
            s.route == route && s.message != Refused(104)
  {
  }

  // ---- handle ----

  /** The state the outcome is taken for: a peer that closes on a disconnect or
      cancel has done what was asked; an internal error of the response is the
      task's error. */
  function Outcome(req: Request, answer: Answer, state: TaskState, error: int): (TaskState, int) {
    var (state', error') :=
      if req.ToldToClose() && state.SysError? && (error == ECONNRESET || error == 0) then (Success, 0)
      else (state, error);
    if state'.Success? && answer.isError && answer.internalError != 0 then (TaskError, answer.internalError)
    else (state', error')
  }

  function UpdateProtocol(conn: Conn, req: Request, answer: Answer, state: TaskState): Conn {
    if !state.Success? && !(state.TaskError? && answer.isError) then conn.(protocol := Broken)
    else if answer.copyIn then conn.(protocol := CopyIn)
    else if req.wait then conn.(protocol := Ready)
    else if IsTxState(answer.tx) then conn.(protocol := Ready)
    else conn
  }

  /** The user's handle. */
  datatype Handle = Handle(lastTx: int, pid: int, secret: bytes)

  const FRESH_HANDLE := Handle(IDLE, 0, [])

  function UpdateHandle(h: Handle, req: Request, answer: Answer, started: bool, state: TaskState): Handle {
    if req.disconnect && state.Success? then FRESH_HANDLE
    else if started && state.Success? then
      Handle(if answer.ready then answer.tx else h.lastTx, answer.pid, answer.secret)
    else if started then h.(pid := 0, secret := [])
    else h
  }

  function UpdateRoute(route: int, req: Request, answer: Answer, started: bool, state: TaskState): int {
    if req.disconnect && state.Success? then NEW
    else if started && state.Success? then (if answer.ready then answer.tx else UNKNOWN)
    else route
  }

  /** The answer carries the connection's key data. */
  function Stamp(answer: Answer, conn: Option<Conn>): Answer {
    if conn.None? then answer
    else answer.(pid := conn.value.pid, key := conn.value.key, secret := conn.value.secret)
  }

  // ---- finish_once ----

  datatype StartupReply = StartupReply(isError: bool, internalError: int, sqlState: bytes,
                                       version: nat, pid: int, key: int, secret: bytes)

  const ERR_SSL_NOT_SUPPORTED := 14001
  const ERR_SSL_INIT_FAILED := 14002
  const ERR_AUTH_FAILED := 14003
  const ERR_PROTOCOL_NOT_SUPPORTED := 14005
  const ERR_PROTOCOL := 14006

  datatype Finish = Over | Again(conn: Conn) | Failed(error: int)

  /** The answer to the TLS request; `created`: the TLS object could be made. */
  function StartTls(reply: byte, created: bool): Finish {
    if reply != 'S' as int then Failed(ERR_SSL_NOT_SUPPORTED)
    else if !created then Failed(ERR_SSL_INIT_FAILED)
    else Again(Conn(1, Ready, 0, 0, []))
  }

  function FinishStartup(conn: Option<Conn>, r: StartupReply): Finish {
    if r.isError then
      Failed(if r.internalError != 0 then r.internalError
             else if r.sqlState == Text("28P01") || r.sqlState == Text("28000") then ERR_AUTH_FAILED
             else ERR_PROTOCOL)
    else if r.version != 0 && r.version / TWO_16 != 3 then Failed(ERR_PROTOCOL_NOT_SUPPORTED)
    else
      var base := if conn.Some? then conn.value else Conn(0, Ready, 0, 0, []);
      Again(base.(stage := STARTED, pid := r.pid, key := r.key, secret := r.secret))
  }

  /** After a successful exchange: whether the task goes on, and with what context. */
  function FinishOnce(ssl: bool, seqNo: nat, conn: Option<Conn>, isUser: bool,
                      tlsReply: byte, tlsCreated: bool, r: StartupReply): Finish
  {
    if seqNo == 0 && ssl then StartTls(tlsReply, tlsCreated)
    else if ssl && conn.Some? && conn.value.stage == 1 then Again(conn.value.(stage := 2))
    else if ssl && conn.Some? && conn.value.stage == 2 then FinishStartup(conn, r)
    else if !isUser then FinishStartup(conn, r)
    else Over
  }

  // ---- keep_alive_timeout ----

  const KEEPALIVE_DEFAULT := 30 * 1000

  function KeepAlive(state: TaskState, isUser: bool, req: Request, tx: int, fixed: bool, timeout: int): int {
    if !state.Success? then 0
    else if !isUser then KEEPALIVE_DEFAULT
    else if req.ToldToClose() then 0
    else if tx == 'E' as int then 0
    else if tx == 'T' as int && !fixed then 0
    else timeout
  }
}
