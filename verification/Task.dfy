/** The task object and the objects it updates in place. */
module Task {
  import opened Wrappers
  import opened Wire
  import opened Transaction
  import opened Session

  class PostgresConnection {
    var state: nat
    var protocolState: Protocol
    var backendPid: int
    var backendSecret: int
    var backendSecretData: bytes

    constructor (state: nat)
      ensures View() == Conn(state, Ready, 0, 0, [])
    {
      this.state, protocolState := state, Ready;
      backendPid, backendSecret, backendSecretData := 0, 0, [];
    }

    function View(): Conn
      reads this
    {
      Conn(state, protocolState, backendPid, backendSecret, backendSecretData)
    }
  }

  class RouteTarget {
    var state: int
  }

  class WFPostgresConnection {
    var lastTxState: int
    var backendPid: int
    var backendSecretData: bytes

    constructor ()
      ensures View() == FRESH_HANDLE
    {
      lastTxState, backendPid, backendSecretData := IDLE, 0, [];
    }

    function View(): Handle
      reads this
    {
      Handle(lastTxState, backendPid, backendSecretData)
    }
  }

  /** The framework's connection, with the context slot the task fills. */
  class WFConnection {
    var context: PostgresConnection?

    function View(): Option<Conn>
      reads this, context
    {
      if context == null then None else Some(context.View())
    }
  }

  method CheckReconnectGuard(fixed: bool, allowIdle: bool, target: RouteTarget?, conn: PostgresConnection?)
    returns (ok: bool, error: int)
    modifies target, conn
    ensures var was := if conn == null then None else Some(old(conn.View()));
            var now := if conn == null then None else Some(conn.View());
            var route := if target == null then NEW else old(target.state);
            match CheckReconnect(fixed && target != null, allowIdle, route, was)
            case Passed(c) => ok && now == c && (target != null ==> target.state == old(target.state))
            case Reset(r) => !ok && error == ECONNRESET && now == was && target != null && target.state == r
    ensures !ok <==> && conn != null && old(conn.state) == 3 && fixed && target != null && old(target.state) != 0
                     && !(allowIdle && old(target.state) == 'I' as int)
    ensures !ok ==> error == 104 && target.state == -1
    ensures ok && conn != null ==> conn.state == if old(conn.state) == 3 then 4 else old(conn.state)
  {
    if conn != null && conn.state == STARTED {
      if fixed && target != null && target.state != NEW && !(allowIdle && target.state == IDLE) {
        target.state := UNKNOWN;
        return false, ECONNRESET;
      }
      conn.state := USED;
    }
    return true, 0;
  }

  method ValidateRequest(conn: PostgresConnection?, req: Request) returns (ok: bool, error: int)
    modifies conn
    ensures var was := if conn == null then None else Some(old(conn.View()));
            var now := if conn == null then None else Some(conn.View());
            match Validate(was, req)
            case Valid(c) => ok && now == c
            case Invalid(e) => !ok && error == e && now == was
    ensures conn == null ==> ok
    ensures conn != null ==>
              var copy := req.copy || req.copyDone || req.copyFail;
              && (ok <==> match old(conn.protocolState)
                          case Ready => !copy
                          case CopyIn => copy || req.disconnect
                          case NotifyWait => req.disconnect
                          case Broken => false)
              && (!ok ==> error == if old(conn.protocolState) == Broken then 9 else 71)
              && (conn.protocolState
                  == if ok && old(conn.protocolState) == Ready && req.wait then NotifyWait else old(conn.protocolState))
  {
    if conn == null {
      return true, 0;
    }
    var isCopyTask := req.copy || req.copyDone || req.copyFail;
    match conn.protocolState {
      case Broken => return false, EBADF;
      case CopyIn =>
        if !isCopyTask && !req.disconnect {
          return false, EPROTO;
        }
      case NotifyWait =>
        if !req.disconnect {
          return false, EPROTO;
        }
      case Ready =>
        if isCopyTask {
          return false, EPROTO;
        }
        if req.wait {
          conn.protocolState := NotifyWait;
        }
    }
    return true, 0;
  }

  class ComplexPostgresTask {
    const isSsl: bool
    const fixed: bool
    const keepAliveTimeo: int
    const target: RouteTarget?
    const handle: WFPostgresConnection?
    const req: Request
    var resp: Answer
    var state: TaskState
    var error: int
    var isUserRequest: bool
    var userRequestStarted: bool

    constructor (isSsl: bool, fixed: bool, keepAliveTimeo: int, target: RouteTarget?,
                 handle: WFPostgresConnection?, req: Request)
      ensures this.isSsl == isSsl && this.fixed == fixed && this.keepAliveTimeo == keepAliveTimeo
      ensures this.target == target && this.handle == handle && this.req == req
      ensures isUserRequest && !userRequestStarted
    {
      this.isSsl, this.fixed, this.keepAliveTimeo := isSsl, fixed, keepAliveTimeo;
      this.target, this.handle, this.req := target, handle, req;
      resp := Answer(false, 0, false, false, IDLE, 0, 0, []);
      state, error := OtherError, 0;
      isUserRequest, userRequestStarted := true, false;
    }

    predicate OnRoute() {
      fixed && target != null
    }

    function Route(): int
      reads target
    {
      if target == null then NEW else target.state
    }

    /** The user's own message, once the connection needs no startup step. */
    method SendUser(conn: PostgresConnection?) returns (message: Message)
      modifies this`isUserRequest, this`userRequestStarted, target, conn
      ensures var was := if conn == null then None else Some(old(conn.View()));
              var now := if conn == null then None else Some(conn.View());
              var s := Session.SendUser(OnRoute(), was, req, old(Route()), old(userRequestStarted));
              && s == Sending(message, now, s.route, isUserRequest, userRequestStarted)
              && (target != null ==> target.state == s.route)
      ensures var renewed, route := conn != null && old(conn.state) == 3 && !req.disconnect, old(Route());
              var held := renewed && OnRoute() && route != 0 && (route != 'I' as int || req.wait || req.copy);
              var sends := message == User;
              && (held ==> message == Refused(104))
              && (!held && !sends ==> message == Refused(9) || message == Refused(71))
              && (target != null ==>
                    target.state == if held || (sends && OnRoute() && !req.cancel && !req.disconnect) then -1
                                    else old(target.state))
              && (conn != null ==> conn.state == if renewed && !held then 4 else old(conn.state))
              && isUserRequest && userRequestStarted == (old(userRequestStarted) || sends)
    {
      isUserRequest := true;
      var allowIdleReconnect := !req.wait && !req.copy;
      if !req.disconnect {
        var ok, e := CheckReconnectGuard(fixed, allowIdleReconnect, target, conn);
        if !ok {
          return Refused(e);
        }
      }
      var ok, e := ValidateRequest(conn, req);
      if !ok {
        return Refused(e);
      }
      userRequestStarted := true;
      if fixed && target != null && !req.cancel && !req.disconnect {
        target.state := UNKNOWN;
      }
      return User;
    }

    /** The message the task sends next on `conn`, whose messages so far number `seqNo`. */
    method MessageOut(conn: PostgresConnection?, seqNo: nat) returns (message: Message)
      modifies this`isUserRequest, this`userRequestStarted, target, conn
      ensures var was := if conn == null then None else Some(old(conn.View()));
              var now := if conn == null then None else Some(conn.View());
              var s := Session.MessageOut(isSsl, OnRoute(), seqNo, was, req, old(Route()), old(userRequestStarted));
              && s == Sending(message, now, s.route, isUserRequest, userRequestStarted)
              && (target != null ==> target.state == s.route)
      ensures var first := seqNo == 0 && !req.cancel && (conn == null || (isSsl && old(conn.state) < 3));
              var stage := if isSsl && conn != null then old(conn.state) else 0;
              && (first ==> message == if isSsl then TlsRequest else Startup)
              && (!first && stage == 1 ==> message == Handshake)
              && (!first && stage == 2 ==> message == Startup)
              && (isUserRequest <==> !first && stage != 1 && stage != 2)
              && (isUserRequest <==> message == User || message.Refused?)
    {
      isUserRequest := false;
      if seqNo == 0 && !req.cancel && (conn == null || (isSsl && conn.state < STARTED)) {
        return if isSsl then TlsRequest else Startup;
      }
      if isSsl && conn != null && conn.state == 1 {
        return Handshake;
      } else if isSsl && conn != null && conn.state == 2 {
        return Startup;
      }
      message := SendUser(conn);
    }

    method UpdateAfterResponse(conn: PostgresConnection?, taskState: TaskState)
      modifies conn, this`resp
      ensures resp == Stamp(old(resp), if conn == null then None else Some(old(conn.View())))
      ensures conn != null ==> conn.View() == UpdateProtocol(old(conn.View()), req, old(resp), taskState)
      ensures conn != null ==>
                var broken := !taskState.Success? && !(taskState.TaskError? && old(resp.isError));
                var ended := req.wait || old(resp.tx) in {'I' as int, 'T' as int, 'E' as int};
                && (conn.protocolState
                    == if broken then Broken
                       else if old(resp.copyIn) then CopyIn
                       else if ended then Ready
                       else old(conn.protocolState))
                && (resp.pid, resp.key, resp.secret)
                   == old((conn.backendPid, conn.backendSecret, conn.backendSecretData))
    {
      if conn == null {
        return;
      }
      resp := resp.(pid := conn.backendPid, key := conn.backendSecret, secret := conn.backendSecretData);
      if taskState != Success && !(taskState == TaskError && resp.isError) {
        conn.protocolState := Broken;
      } else if resp.copyIn {
        conn.protocolState := CopyIn;
      } else if req.wait {
        conn.protocolState := Ready;
      } else if IsTxState(resp.tx) {
        conn.protocolState := Ready;
      }
    }

    /** How a user request of a fixed connection leaves the route and the handle. */
    method UpdateContinuity()
      requires isUserRequest && OnRoute()
      modifies handle, target
      ensures target.state == UpdateRoute(old(target.state), req, resp, userRequestStarted, state)
      ensures handle != null ==> handle.View() == UpdateHandle(old(handle.View()), req, resp, userRequestStarted, state)
      ensures var closed, answered := req.disconnect && state == Success, userRequestStarted && state == Success;
              && (target.state
                  == if closed then 0
                     else if !answered then old(target.state)
                     else if resp.ready then resp.tx
                     else -1)
              && (handle != null ==>
                    && handle.lastTxState
                       == (if closed then 'I' as int
                           else if answered && resp.ready then resp.tx
                           else old(handle.lastTxState))
                    && (handle.backendPid, handle.backendSecretData)
                       == (if closed then (0, [])
                           else if answered then (resp.pid, resp.secret)
                           else if userRequestStarted then (0, [])
                           else old((handle.backendPid, handle.backendSecretData))))
    {
      if req.disconnect && state == Success {
        target.state := NEW;
        if handle != null {
          handle.lastTxState, handle.backendPid, handle.backendSecretData := IDLE, 0, [];
        }
      } else if userRequestStarted && state == Success {
        target.state := if resp.ready then resp.tx else UNKNOWN;
        if handle != null {
          if resp.ready {
            handle.lastTxState := resp.tx;
          }
          handle.backendPid, handle.backendSecretData := resp.pid, resp.secret;
        }
      } else if userRequestStarted && handle != null {
        handle.backendPid, handle.backendSecretData := 0, [];
      }
    }

    /** The outcome the exchange is taken for. */
    method Settle(state: TaskState, error: int)
      modifies this`state, this`error
      ensures (this.state, this.error) == Outcome(req, resp, state, error)
      ensures var closed := (req.disconnect || req.cancel) && state == SysError && error in {0, 104};
              var refused := (state == Success || closed) && resp.isError && resp.internalError != 0;
              && (this.state == Success <==> (state == Success || closed) && !refused)
              && (refused ==> this.state == TaskError && this.error == resp.internalError)
              && (closed && !refused ==> this.error == 0)
              && (!closed && !refused ==> (this.state, this.error) == (state, error))
    {
      this.state, this.error := state, error;
      if (req.disconnect || req.cancel) && state == SysError && (error == ECONNRESET || error == 0) {
        this.state, this.error := Success, 0;
      }
      if this.state == Success && resp.isError && resp.internalError != 0 {
        this.state, this.error := TaskError, resp.internalError;
      }
    }

    /** The exchange on `conn` (null when there was no connection) has ended. */
    method Complete(conn: PostgresConnection?, state: TaskState, error: int)
      modifies this`resp, this`state, this`error, handle, target, conn
      ensures (this.state, this.error) == Outcome(req, old(resp), state, error)
      ensures var was := if conn == null then None else Some(old(conn.View()));
              resp == if isUserRequest then Stamp(old(resp), was) else old(resp)
      ensures conn != null ==>
                conn.View() == if isUserRequest then UpdateProtocol(old(conn.View()), req, old(resp), this.state)
                               else old(conn.View())
      ensures target != null ==>
                target.state == if isUserRequest && OnRoute()
                                then UpdateRoute(old(target.state), req, resp, userRequestStarted, this.state)
                                else old(target.state)
      ensures handle != null ==>
                handle.View() == if isUserRequest && OnRoute()
                                 then UpdateHandle(old(handle.View()), req, resp, userRequestStarted, this.state)
                                 else old(handle.View())
    {
      Settle(state, error);
      if isUserRequest {
        UpdateAfterResponse(conn, this.state);
      }
      if isUserRequest && fixed && target != null {
        UpdateContinuity();
      }
    }

    method FinishStartupAuth(wf: WFConnection, r: StartupReply) returns (over: bool)
      requires state.Success?
      modifies this`isUserRequest, this`state, this`error, wf, wf.context
      ensures match FinishStartup(old(wf.View()), r)
              case Over => false
              case Again(c) => !over && wf.View() == Some(c) && isUserRequest && state.Success?
              case Failed(e) =>
                over && wf.View() == old(wf.View()) && state.TaskError? && error == e
                && isUserRequest == old(isUserRequest)
      ensures over <==> r.isError || (r.version != 0 && r.version / 0x1_0000 != 3)
      ensures over ==>
                state == TaskError &&
                error == if !r.isError then 14005
                         else if r.internalError != 0 then r.internalError
                         else if r.sqlState == Text("28P01") || r.sqlState == Text("28000") then 14003
                         else 14006
      ensures !over ==>
                && wf.context != null && wf.context.state == 3
                && wf.context.backendPid == r.pid && wf.context.backendSecret == r.key
                && wf.context.backendSecretData == r.secret
      ensures wf.context == old(wf.context) || fresh(wf.context)
    {
      if r.isError {
        state := TaskError;
        if r.internalError != 0 {
          error := r.internalError;
        } else if r.sqlState == Text("28P01") || r.sqlState == Text("28000") {
          error := ERR_AUTH_FAILED;
        } else {
          error := ERR_PROTOCOL;
        }
        return true;
      }
      if r.version != 0 && r.version / TWO_16 != 3 {
        state, error := TaskError, ERR_PROTOCOL_NOT_SUPPORTED;
        return true;
      }
      if wf.context == null {
        wf.context := new PostgresConnection(0);
      }
      var conn := wf.context;
      conn.backendPid, conn.backendSecret, conn.backendSecretData := r.pid, r.key, r.secret;
      conn.state := STARTED;
      isUserRequest := true;
      return false;
    }

    /** Whether the task is over after a successful exchange. */
    method FinishOnce(wf: WFConnection, seqNo: nat, tlsReply: byte, tlsCreated: bool, r: StartupReply)
      returns (over: bool)
      requires state.Success?
      modifies this`isUserRequest, this`state, this`error, wf, wf.context
      ensures match Session.FinishOnce(isSsl, seqNo, old(wf.View()), old(isUserRequest), tlsReply, tlsCreated, r)
              case Over => over && wf.View() == old(wf.View()) && state.Success?
              case Again(c) => !over && wf.View() == Some(c) && state.Success?
              case Failed(e) => over && wf.View() == old(wf.View()) && state.TaskError? && error == e
      ensures seqNo == 0 && isSsl ==>
                && (over <==> tlsReply != 'S' as int || !tlsCreated)
                && (over ==> error == if tlsReply != 'S' as int then 14001 else 14002)
                && (!over ==> wf.View() == Some(Conn(1, Ready, 0, 0, [])))
      ensures var was := old(wf.View());
              var handshake := isSsl && seqNo != 0 && was.Some? && was.value.stage == 1;
              var startup := !handshake && !(isSsl && seqNo == 0)
                             && (!old(isUserRequest) || (isSsl && was.Some? && was.value.stage == 2));
              && (handshake ==> !over && wf.View() == Some(was.value.(stage := 2)))
              && (startup ==> (over <==> r.isError || (r.version != 0 && r.version / 0x1_0000 != 3)))
              && (startup && !over ==>
                    wf.context != null && wf.context.state == 3 && wf.context.backendSecretData == r.secret)
              && (!handshake && !startup && !(isSsl && seqNo == 0) ==> over && state == Success && wf.View() == was)
    {
      var conn := wf.context;
      if seqNo == 0 && isSsl {
        if tlsReply != 'S' as int {
          state, error := TaskError, ERR_SSL_NOT_SUPPORTED;
          return true;
        }
        if !tlsCreated {
          state, error := TaskError, ERR_SSL_INIT_FAILED;
          return true;
        }
        wf.context := new PostgresConnection(1);
        return false;
      }
      if isSsl && conn != null && conn.state == 1 {
        conn.state := 2;
        return false;
      }
      if (isSsl && conn != null && conn.state == 2) || !isUserRequest {
        over := FinishStartupAuth(wf, r);
        return;
      }
      return true;
    }

    /** A socket is never kept after a failure, after a disconnect or cancel, or in
        a failed transaction, and in an open one only by a fixed connection. */
    method KeepAliveTimeout() returns (timeout: int)
      ensures timeout == KeepAlive(state, isUserRequest, req, resp.tx, fixed, keepAliveTimeo)
      ensures var keeps := state == Success
                           && (isUserRequest ==> !req.disconnect && !req.cancel && resp.tx != 'E' as int
                                                 && (resp.tx == 'T' as int ==> fixed));
              timeout == if !keeps then 0 else if isUserRequest then keepAliveTimeo else 30000
    {
      if !state.Success? {
        return 0;
      }
      if !isUserRequest {
        return KEEPALIVE_DEFAULT;
      }
      if req.disconnect || req.cancel {
        return 0;
      }
      if resp.tx == 'E' as int {
        return 0;
      }
      if resp.tx == 'T' as int && !fixed {
        return 0;
      }
      return keepAliveTimeo;
    }
  }
}
