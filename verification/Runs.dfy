/** Every run of tasks on one fixed route: the tasks are served one at a time,
    and the environment opens, loses and drops sockets as it likes. */
module Runs {
  import opened Wrappers
  import opened Wire
  import opened Transaction
  import opened Session
  import opened Journal

  /** `seqNo` counts the messages already sent on the socket. */
  datatype Socket = Socket(id: nat, seqNo: nat, conn: Option<Conn>)

  datatype Phase = Dispatch | Awaiting(message: Message)

  datatype Job = Job(id: nat, req: Request, isUser: bool, started: bool, phase: Phase)
  {
    predicate Waits() {
      phase.Awaiting?
    }

    predicate InFlight() {
      phase == Awaiting(User)
    }
  }

  datatype World = World(sock: Option<Socket>, route: int, handle: Handle, job: Option<Job>,
                         sockets: nat, jobs: nat, log: seq<Event>)
  {
    function Log(e: Event): World {
      this.(log := log + [e])
    }

    /** A socket left open by a failed startup: used, but without a context. */
    predicate Stray() {
      sock.Some? && sock.value.conn.None? && sock.value.seqNo > 0 && !(job.Some? && job.value.Waits())
    }

    predicate AtRest() {
      sock.None? && job.None?
    }
  }

  const INITIAL := World(None, NEW, FRESH_HANDLE, None, 0, 0, [])

  /** How an exchange fails; `retry`: the framework tries the task again. */
  datatype Failure = Failure(answer: Answer, state: TaskState, error: int, retry: bool)

  /** `Send`: should the request be refused, whether the socket is kept, whether
      the task still sees its connection, and whether the task is tried again.
      `Respond`: `early` if the framework asks how long to keep the socket before
      the outcome is stored. */
  datatype Move =
    | Begin(req: Request)
    | Open
    | Unreachable(failure: Failure)
    | Send(keep: bool, seen: bool, retry: bool, answer: Answer)
    | Reply(tlsReply: byte, created: bool, startup: StartupReply, keep: bool)
    | Respond(answer: Answer, timeout: int, early: bool)
    | Fail(failure: Failure)
    | Lose

  predicate Enabled(w: World, m: Move) {
    match m
    case Begin(req) => w.job.None? && req.Built() && !req.cancel
    case Open => w.job.Some? && !w.job.value.Waits() && w.sock.None?
    case Unreachable(f) => w.job.Some? && !w.job.value.Waits() && w.sock.None? && Failing(f)
    case Send(_, _, _, _) => w.job.Some? && !w.job.value.Waits() && w.sock.Some?
    case Reply(_, _, _, _) =>
      w.job.Some? && w.job.value.Waits() && !w.job.value.InFlight() && w.sock.Some? && w.sock.value.seqNo > 0
    case Respond(answer, _, _) => w.job.Some? && w.job.value.InFlight() && w.sock.Some? && answer.Sound()
    case Fail(f) => w.job.Some? && w.job.value.Waits() && w.sock.Some? && Failing(f)
    case Lose => w.sock.Some? && !(w.job.Some? && w.job.value.Waits())
  }

  /** A move of a run: nothing is sent on a stray socket. */
  predicate Allowed(w: World, m: Move) {
    Enabled(w, m) && (m.Send? ==> !w.Stray())
  }

  predicate Failing(f: Failure) {
    f.state.SysError? || f.state.OtherError?
  }

  /** What `handle` does to the route and the handle, given the outcome. */
  function Handled(w: World, j: Job, conn: Option<Conn>, answer: Answer, s: TaskState): World {
    if !j.isUser then w
    else
      var w' := w.(route := UpdateRoute(w.route, j.req, Stamp(answer, conn), j.started, s),
                   handle := UpdateHandle(w.handle, j.req, Stamp(answer, conn), j.started, s));
      if j.req.disconnect && s.Success? then w'.Log(Disconnected) else w'
  }

  function Again(j: Job, s: TaskState, retry: bool): Option<Job> {
    if retry && !s.Success? then Some(j.(phase := Dispatch)) else None
  }

  function DoFail(w: World, f: Failure): World
    requires w.job.Some? && (w.job.value.InFlight() ==> w.sock.Some?)
  {
    var j := w.job.value;
    var conn := if w.sock.Some? then w.sock.value.conn else None;
    var s := Outcome(j.req, f.answer, f.state, f.error).0;
    var w' := Handled(w, j, conn, f.answer, s).(sock := None, job := Again(j, s, f.retry));
    if j.InFlight() && !s.Success? then w'.Log(Lost(w.sock.value.id)) else w'
  }

  function DoSend(ssl: bool, w: World, keep: bool, seen: bool, retry: bool, answer: Answer): World
    requires w.job.Some? && w.sock.Some?
  {
    var j, k := w.job.value, w.sock.value;
    var x := MessageOut(ssl, true, k.seqNo, k.conn, j.req, w.route, j.started);
    var j' := j.(isUser := x.isUser, started := x.started);
    if x.message.Refused? then Refuse(w.(route := x.route), j', k, x.conn, x.message.error, keep, seen, retry, answer)
    else
      var w' := w.(route := x.route, job := Some(j'.(phase := Awaiting(x.message))),
                   sock := Some(Socket(k.id, k.seqNo + 1, x.conn)));
      if x.message.User? then w'.Log(Sent(k.id, j.id, j.req)) else w'
  }

  /** A refused request: the socket may be kept or dropped, and the task may or
      may not still see its connection. */
  function Refuse(w: World, j: Job, k: Socket, conn: Option<Conn>, error: int,
                  keep: bool, seen: bool, retry: bool, answer: Answer): World
  {
    var s := Outcome(j.req, answer, SysError, error).0;
    var marked := keep && seen && conn.Some?;
    var conn' := if marked then Some(UpdateProtocol(conn.value, j.req, answer, s)) else conn;
    Handled(w, j, conn, answer, s)
      .(job := Again(j, s, retry), sock := if keep then Some(Socket(k.id, k.seqNo + 1, conn')) else None)
      .Log(Event.Refused(k.id, j.req, error, marked))
  }

  function DoReply(ssl: bool, w: World, tlsReply: byte, created: bool, r: StartupReply, keep: bool): World
    requires w.job.Some? && w.sock.Some? && w.sock.value.seqNo > 0
  {
    var j, k := w.job.value, w.sock.value;
    match FinishOnce(ssl, k.seqNo - 1, k.conn, j.isUser, tlsReply, created, r)
    case Again(c) =>
      w.(sock := Some(k.(conn := Some(c))), job := Some(j.(phase := Dispatch, isUser := c.stage == STARTED)))
       .Log(Passing(k.id, c))
    case _ => w.(sock := if keep then w.sock else None, job := None)
  }

  /** The record of a stage of the startup. */
  function Passing(id: nat, c: Conn): Event {
    if c.stage == 1 then TlsAccepted(id) else if c.stage == 2 then Handshaken(id) else Started(id, c.pid, c.secret)
  }

  function DoRespond(w: World, answer: Answer, timeout: int, early: bool): World
    requires w.job.Some? && w.sock.Some?
  {
    var j, k := w.job.value, w.sock.value;
    var s := Outcome(j.req, answer, Success, 0).0;
    var conn := if k.conn.Some? then Some(UpdateProtocol(k.conn.value, j.req, answer, s)) else None;
    var kept := KeepAlive(if early then Success else s, true, j.req, answer.tx, true, timeout);
    var stamped := Stamp(answer, k.conn);
    var w' := Handled(w, j, k.conn, answer, s)
              .(job := None, sock := if kept == 0 then None else Some(k.(conn := conn)));
    if !j.req.disconnect then
      w'.Log(Answered(k.id, j.req, answer.copyIn, answer.ready, answer.tx, !s.Success?, stamped.pid, stamped.secret))
    else if !s.Success? then w'.Log(Lost(k.id))
    else w'
  }

  function Do(ssl: bool, w: World, m: Move): World
    requires Enabled(w, m)
  {
    match m
    case Begin(req) => w.(job := Some(Job(w.jobs, req, true, false, Dispatch)), jobs := w.jobs + 1)
    case Open => w.(sock := Some(Socket(w.sockets, 0, None)), sockets := w.sockets + 1)
    case Unreachable(f) => DoFail(w, f)
    case Send(keep, seen, retry, answer) => DoSend(ssl, w, keep, seen, retry, answer)
    case Reply(tlsReply, created, r, keep) => DoReply(ssl, w, tlsReply, created, r, keep)
    case Respond(answer, timeout, early) => DoRespond(w, answer, timeout, early)
    case Fail(f) => DoFail(w, f)
    case Lose => w.(sock := None)
  }

  // ---- the shape of a step ----

  predicate Waiting(w: World) {
    w.job.Some? && w.job.value.Waits()
  }

  predicate InFlight(w: World) {
    w.job.Some? && w.job.value.InFlight()
  }

  predicate SqlInFlight(w: World) {
    InFlight(w) && !w.job.value.req.disconnect
  }

  /** Each phase of a task goes with one stage of its connection. */
  predicate Shaped(ssl: bool, w: World) {
    && (w.job.Some? ==> w.job.value.req.Built() && !w.job.value.req.cancel)
    && (Waiting(w) ==>
          && w.sock.Some? && (w.job.value.isUser <==> w.job.value.InFlight())
          && (w.job.value.InFlight() ==> w.job.value.started))
    && (w.sock.Some? ==>
          var k := w.sock.value;
          && (k.conn.Some? ==> k.seqNo > 0 && (if ssl then 1 else STARTED) <= k.conn.value.stage <= USED)
          && (Waiting(w) ==> k.seqNo > 0 && Fits(ssl, w.job.value.phase.message, w.job.value.req, k)))
  }

  predicate Fits(ssl: bool, m: Message, req: Request, k: Socket) {
    match m
    case TlsRequest => ssl && k.conn.None? && k.seqNo == 1
    case Handshake => ssl && k.conn.Some? && k.conn.value.stage == 1 && k.seqNo > 1
    case Startup => if ssl then k.conn.Some? && k.conn.value.stage == 2 && k.seqNo > 1 else k.conn.None?
    case User => k.conn.Some? && k.conn.value.stage >= STARTED && k.seqNo > 1
                 && (req.disconnect || k.conn.value.stage == USED) && !k.conn.value.protocol.Broken?
    case Refused(_) => false
  }

  predicate SameTask(w: World, w': World) {
    && w.job.Some? && w'.job.Some?
    && var j, j' := w.job.value, w'.job.value;
       j.id == j'.id && j.req == j'.req && (j.started ==> j'.started)
  }

  /** The task is over, or will be tried again. */
  predicate Left(w: World, w': World) {
    w'.job.None? || (SameTask(w, w') && !Waiting(w') && w.job.value.started == w'.job.value.started)
  }

  predicate SameCounts(w: World, w': World) {
    w'.sockets == w.sockets && w'.jobs == w.jobs
  }

  /** A task that has been sent and is not in flight can only clear the key data. */
  predicate SameHandle(w: World, w': World) {
    || w'.handle == w.handle
    || (w.job.Some? && w.job.value.started && !InFlight(w) && w'.handle == w.handle.(pid := 0, secret := []))
  }

  predicate SameRecord(w: World, w': World) {
    w'.log == w.log && w'.route == w.route && SameHandle(w, w')
  }

  predicate SameKey(c: Conn, c': Conn) {
    c'.pid == c.pid && c'.secret == c.secret
  }

  predicate Begins(w: World, w': World) {
    && SameRecord(w, w') && w'.sock == w.sock && w'.sockets == w.sockets && w'.jobs == w.jobs + 1
    && w.job.None? && w'.job.Some?
    && var j := w'.job.value; j.id == w.jobs && !j.started && !j.Waits() && j.req.Built() && !j.req.cancel
  }

  predicate Opens(w: World, w': World) {
    && SameRecord(w, w') && w'.job == w.job && !Waiting(w) && w'.jobs == w.jobs
    && w'.sockets == w.sockets + 1 && w'.sock == Some(Socket(w.sockets, 0, None))
  }

  predicate Ends(w: World, w': World) {
    && SameRecord(w, w') && SameCounts(w, w') && !InFlight(w)
    && (w'.sock.None? || w'.sock == w.sock)
    && (Left(w, w') || (w'.job == w.job && !Waiting(w)))
  }

  predicate Loses(w: World, w': World) {
    && SameCounts(w, w') && InFlight(w) && w.sock.Some? && w'.sock.None? && Left(w, w')
    && w'.log == w.log + [Lost(w.sock.value.id)]
    && w'.route == w.route && w'.handle == w.handle.(pid := 0, secret := [])
  }

  predicate Closes(w: World, w': World) {
    && SameCounts(w, w') && w'.log == w.log + [Disconnected]
    && w'.route == NEW && w'.handle == FRESH_HANDLE && w'.sock.None? && w'.job.None?
  }

  predicate Refuses(w: World, w': World) {
    && SameCounts(w, w') && !Waiting(w) && w.sock.Some? && w.sock.value.conn.Some? && w.job.Some? && Left(w, w')
    && SameHandle(w, w')
    && |w'.log| == |w.log| + 1
    && var e, k, req := w'.log[|w.log|], w.sock.value, w.job.value.req;
       && w'.log == w.log + [e] && e.Refused? && e.session == k.id && e.req == req
       && (if IsReset(e) then
             w'.route == UNKNOWN && w.route != NEW && k.conn.value.stage == STARTED
             && (w.route != IDLE || req.copy || req.wait)
           else w'.route == w.route)
       && Spared(w, w', e)
  }

  /** What a refusal leaves of the socket. */
  predicate Spared(w: World, w': World, e: Event)
    requires w.sock.Some? && w.sock.value.conn.Some? && e.Refused?
  {
    if w'.sock.None? then !e.marked
    else
      var k, k' := w.sock.value, w'.sock.value;
      && k'.id == k.id && k'.conn.Some? && k'.seqNo > 0
      && var c, c' := k.conn.value, k'.conn.value;
         && SameKey(c, c')
         && (c'.stage == c.stage || c'.stage == USED == c.stage + 1)
         && (e.marked ==> c'.protocol.Broken?)
         && (c'.protocol.Broken?
             || (c'.protocol == c.protocol && (c'.stage == c.stage || c.protocol != Ready || w.route == NEW)))
  }

  predicate Prepares(ssl: bool, w: World, w': World) {
    && SameRecord(w, w') && SameCounts(w, w') && SameTask(w, w') && w.job.value.started == w'.job.value.started
    && !Waiting(w) && Waiting(w') && !w'.job.value.InFlight() && !w'.job.value.isUser
    && w.sock.Some? && w'.sock.Some?
    && var k, k' := w.sock.value, w'.sock.value;
       && k'.id == k.id && k'.conn == k.conn && k'.seqNo > 0
       && Fits(ssl, w'.job.value.phase.message, w.job.value.req, k')
       && (k.conn.Some? ==> k.conn.value.stage < STARTED)
  }

  predicate Sends(w: World, w': World) {
    && SameCounts(w, w') && SameTask(w, w') && !Waiting(w) && w'.job.value.InFlight() && w'.job.value.isUser
    && w.sock.Some? && w'.sock.Some? && w.sock.value.conn.Some? && w'.sock.value.conn.Some?
    && w'.handle == w.handle
    && var j, k, k' := w.job.value, w.sock.value, w'.sock.value;
       var c, c' := k.conn.value, k'.conn.value;
       && w'.log == w.log + [Sent(k.id, j.id, j.req)]
       && w'.job.value.started
       && k'.id == k.id && k'.seqNo > 1 && STARTED <= c.stage <= c'.stage <= USED && SameKey(c, c')
       && !c.protocol.Broken? && (j.req.disconnect || !c.protocol.NotifyWait?)
       && (c'.protocol == c.protocol || (c.protocol == Ready && c'.protocol == NotifyWait && j.req.wait))
       && (if j.req.disconnect then w'.route == w.route && c'.stage == c.stage
           else
             && w'.route == UNKNOWN && c'.stage == USED
             && (c.protocol.CopyIn? <==> j.req.CopyTask())
             && (c.stage == USED || w.route == NEW || (w.route == IDLE && !j.req.copy && !j.req.wait)))
  }

  predicate Advances(ssl: bool, w: World, w': World) {
    && SameCounts(w, w') && SameTask(w, w') && Waiting(w) && !Waiting(w') && !InFlight(w)
    && w.job.value.started == w'.job.value.started
    && w'.route == w.route && w'.handle == w.handle
    && w.sock.Some? && w'.sock.Some? && w'.sock.value.conn.Some?
    && var k, k' := w.sock.value, w'.sock.value;
       && k'.id == k.id && k'.seqNo == k.seqNo > 0
       && var c' := k'.conn.value;
          && (if ssl then c'.stage == (if k.conn.Some? then k.conn.value.stage else 0) + 1
              else k.conn.None? && c'.stage == STARTED)
          && c'.stage <= STARTED
          && w'.log == w.log + [Passing(k.id, c')]
          && c'.protocol == (if k.conn.Some? then k.conn.value.protocol else Ready)
  }

  predicate Answers(w: World, w': World) {
    && SameCounts(w, w') && SqlInFlight(w) && w'.job.None? && w.sock.Some? && w.sock.value.conn.Some?
    && |w'.log| == |w.log| + 1
    && var e, k, req := w'.log[|w.log|], w.sock.value, w.job.value.req;
       var c := k.conn.value;
       && w'.log == w.log + [e] && e.Answered? && e.session == k.id && e.req == req
       && e.pid == c.pid && e.secret == c.secret && (e.ready ==> IsTxState(e.tx))
       && w'.route == (if e.failed then w.route else if e.ready then e.tx else UNKNOWN)
       && w'.handle == (if e.failed then w.handle.(pid := 0, secret := [])
                        else Handle(if e.ready then e.tx else w.handle.lastTx, c.pid, c.secret))
       && (w'.sock.None?
           || (w'.sock == Some(k.(conn := Some(c.(protocol := Following(c.protocol, e))))) && e.tx != 'E' as int))
  }

  /** The protocol state after an answer. */
  function Following(p: Protocol, e: Event): Protocol
    requires e.Answered?
  {
    if e.copyIn then CopyIn else if e.req.wait || IsTxState(e.tx) then Ready else p
  }

  predicate Steps(ssl: bool, w: World, w': World) {
    || Begins(w, w') || Opens(w, w') || Ends(w, w') || Loses(w, w') || Closes(w, w') || Refuses(w, w')
    || Prepares(ssl, w, w') || Sends(w, w') || Advances(ssl, w, w') || Answers(w, w')
  }

  lemma FailSteps(ssl: bool, w: World, f: Failure)
    requires w.job.Some? && Failing(f) && Shaped(ssl, w)
    ensures var w' := DoFail(w, f); Ends(w, w') || Loses(w, w') || Closes(w, w')
  {
  }

  /** A refusal leaves the connection as it was, or one that was never allowed
      to carry the request; the guard refuses only what it must. */
  predicate Spares(c: Conn, c': Conn, req: Request, route: int, route': int, error: int) {
    && (c' == c || (c' == c.(stage := USED) && c.stage == STARTED && (c.protocol != Ready || route == NEW)))
    && (if error == ECONNRESET then
          c' == c && route' == UNKNOWN && route != NEW && c.stage == STARTED && !req.disconnect
          && (route != IDLE || req.copy || req.wait)
        else (error == EBADF || error == EPROTO) && route' == route)
  }

  lemma RefusedSending(ssl: bool, w: World)
    requires w.job.Some? && !Waiting(w) && w.sock.Some? && Shaped(ssl, w) && !w.Stray()
    ensures var j, k := w.job.value, w.sock.value;
            var x := MessageOut(ssl, true, k.seqNo, k.conn, j.req, w.route, j.started);
            x.message.Refused? ==>
              && x.started == j.started && k.conn.Some? && x.conn.Some?
              && Spares(k.conn.value, x.conn.value, j.req, w.route, x.route, x.message.error)
  {
  }

  lemma RefuseSteps(w: World, w1: World, j: Job, k: Socket, conn: Conn, error: int,
                    keep: bool, seen: bool, retry: bool, answer: Answer)
    requires w.job.Some? && !Waiting(w) && w.sock == Some(k) && k.conn.Some?
    requires Spares(k.conn.value, conn, j.req, w.route, w1.route, error)
    requires w1 == w.(route := w1.route)
    requires j == w.job.value.(isUser := j.isUser) && !j.req.cancel
    requires k.conn.value.stage <= USED
    ensures Refuses(w, Refuse(w1, j, k, Some(conn), error, keep, seen, retry, answer))
  {
    var w' := Refuse(w1, j, k, Some(conn), error, keep, seen, retry, answer);
    assert w'.log[|w.log|] == Event.Refused(k.id, j.req, error, keep && seen);
  }

  lemma UserSends(ssl: bool, w: World, keep: bool, seen: bool, retry: bool, answer: Answer)
    requires w.job.Some? && !Waiting(w) && w.sock.Some? && Shaped(ssl, w) && !w.Stray()
    requires var j, k := w.job.value, w.sock.value;
             MessageOut(ssl, true, k.seqNo, k.conn, j.req, w.route, j.started).message.User?
    ensures Sends(w, DoSend(ssl, w, keep, seen, retry, answer))
  {
  }

  lemma SendSteps(ssl: bool, w: World, keep: bool, seen: bool, retry: bool, answer: Answer)
    requires w.job.Some? && !Waiting(w) && w.sock.Some? && Shaped(ssl, w) && !w.Stray()
    ensures var w' := DoSend(ssl, w, keep, seen, retry, answer);
            Refuses(w, w') || Prepares(ssl, w, w') || Sends(w, w')
  {
    var j, k := w.job.value, w.sock.value;
    var x := MessageOut(ssl, true, k.seqNo, k.conn, j.req, w.route, j.started);
    if x.message.Refused? {
      RefusedSending(ssl, w);
      RefuseSteps(w, w.(route := x.route), j.(isUser := x.isUser, started := x.started), k, x.conn.value,
                  x.message.error, keep, seen, retry, answer);
    } else if x.message.User? {
      UserSends(ssl, w, keep, seen, retry, answer);
    } else {
      assert Prepares(ssl, w, DoSend(ssl, w, keep, seen, retry, answer));
    }
  }

  lemma ReplySteps(ssl: bool, w: World, tlsReply: byte, created: bool, r: StartupReply, keep: bool)
    requires Waiting(w) && !w.job.value.InFlight() && w.sock.Some? && Shaped(ssl, w)
    ensures var w' := DoReply(ssl, w, tlsReply, created, r, keep); Ends(w, w') || Advances(ssl, w, w')
  {
  }

  lemma RespondSteps(ssl: bool, w: World, answer: Answer, timeout: int, early: bool)
    requires w.job.Some? && w.job.value.InFlight() && w.sock.Some? && Shaped(ssl, w) && answer.Sound()
    ensures var w' := DoRespond(w, answer, timeout, early); Loses(w, w') || Closes(w, w') || Answers(w, w')
  {
    var w' := DoRespond(w, answer, timeout, early);
    if SqlInFlight(w) {
      assert w'.log[|w.log|].Answered?;
    }
  }

  /** Every move is one of the steps. */
  lemma DoSteps(ssl: bool, w: World, m: Move)
    requires Shaped(ssl, w) && Allowed(w, m)
    ensures Steps(ssl, w, Do(ssl, w, m))
  {
    match m
    case Unreachable(f) => FailSteps(ssl, w, f);
    case Fail(f) => FailSteps(ssl, w, f);
    case Send(keep, seen, retry, answer) => SendSteps(ssl, w, keep, seen, retry, answer);
    case Reply(tlsReply, created, r, keep) => ReplySteps(ssl, w, tlsReply, created, r, keep);
    case Respond(answer, timeout, early) => RespondSteps(ssl, w, answer, timeout, early);
    case _ =>
  }

  // ---- what every step keeps ----

  lemma StepExtends(ssl: bool, w: World, w': World)
    requires Steps(ssl, w, w')
    ensures w'.log == w.log || (|w'.log| == |w.log| + 1 && w'.log == w.log + [w'.log[|w.log|]])
  {
    if w'.log != w.log {
      assert w'.log == w.log + [w'.log[|w.log|]];
    }
  }

  lemma StepShaped(ssl: bool, w: World, w': World)
    requires Shaped(ssl, w) && Steps(ssl, w, w')
    ensures Shaped(ssl, w')
  {
  }

  /** The stages behind a connection are on record. */
  predicate Staged(ssl: bool, w: World) {
    w.sock.Some? && w.sock.value.conn.Some? ==>
      var id, c := w.sock.value.id, w.sock.value.conn.value;
      && (ssl ==> TlsAccepted(id) in w.log)
      && (ssl && c.stage >= 2 ==> Handshaken(id) in w.log)
      && (c.stage >= STARTED ==> Started(id, c.pid, c.secret) in w.log)
  }

  lemma StepStaged(ssl: bool, w: World, w': World)
    requires Shaped(ssl, w) && Staged(ssl, w) && Steps(ssl, w, w')
    ensures Staged(ssl, w')
  {
  }

  /** Numbers still to be given out are not in the log. */
  predicate Numbered(w: World) {
    && (forall e :: e in w.log && !e.Disconnected? ==> e.session < w.sockets)
    && (forall e :: e in w.log && e.Sent? ==> e.job < w.jobs)
    && (w.sock.Some? ==> w.sock.value.id < w.sockets)
    && (w.job.Some? ==> w.job.value.id < w.jobs)
  }

  lemma StepNumbered(ssl: bool, w: World, w': World)
    requires Numbered(w) && Steps(ssl, w, w')
    ensures Numbered(w')
  {
  }

  /** What the route number says about the log. */
  predicate Continuous(w: World) {
    NewIsUnsent(w) && IdleIsResumable(w)
  }

  predicate NewIsUnsent(w: World) {
    (w.route == NEW <==> LastSession(w.log).None?) && FlightIsUnknown(w)
  }

  predicate FlightIsUnknown(w: World) {
    SqlInFlight(w) ==> w.route == UNKNOWN
  }

  predicate IdleIsResumable(w: World) {
    w.route == IDLE <==> Resumable(w.log)
  }

  lemma StepFlight(ssl: bool, w: World, w': World)
    requires FlightIsUnknown(w) && Steps(ssl, w, w')
    ensures FlightIsUnknown(w')
  {
  }

  lemma NewStaysNew(ssl: bool, w: World, w': World, e: Event)
    requires FlightIsUnknown(w) && Steps(ssl, w, w') && w'.log == w.log + [e]
    ensures w'.route == NEW <==> e.Disconnected? || (w.route == NEW && !IsSql(e))
  {
    assert w'.log[|w.log|] == e;
  }

  lemma StepNew(ssl: bool, w: World, w': World)
    requires NewIsUnsent(w) && Steps(ssl, w, w')
    ensures NewIsUnsent(w')
  {
    StepFlight(ssl, w, w');
    if w'.log != w.log {
      StepExtends(ssl, w, w');
      var e := w'.log[|w.log|];
      GrowSession(w.log, e);
      NewStaysNew(ssl, w, w', e);
    }
  }

  lemma IdleStaysIdle(ssl: bool, w: World, w': World, e: Event)
    requires FlightIsUnknown(w) && Steps(ssl, w, w') && w'.log == w.log + [e]
    ensures w'.route == IDLE <==>
            if e.Disconnected? || IsSql(e) || IsReset(e) then false
            else if e.Answered? then IsIdleAnswer(e)
            else w.route == IDLE
  {
    assert w'.log[|w.log|] == e;
  }

  lemma StepIdle(ssl: bool, w: World, w': World)
    requires NewIsUnsent(w) && IdleIsResumable(w) && Steps(ssl, w, w')
    ensures IdleIsResumable(w')
  {
    if w'.log != w.log {
      StepExtends(ssl, w, w');
      var e := w'.log[|w.log|];
      GrowResumable(w.log, e);
      IdleStaysIdle(ssl, w, w', e);
    }
  }

  lemma StepContinuous(ssl: bool, w: World, w': World)
    requires Continuous(w) && Steps(ssl, w, w')
    ensures Continuous(w')
  {
    StepNew(ssl, w, w');
    StepIdle(ssl, w, w');
  }

  /** SQL in flight is what the log is waiting for. */
  predicate Awaited(w: World) {
    SqlInFlight(w) ==>
      && w.sock.Some?
      && Pending(w.log) == Some(Sent(w.sock.value.id, w.job.value.id, w.job.value.req))
  }

  lemma StepAwaited(ssl: bool, w: World, w': World)
    requires Awaited(w) && Steps(ssl, w, w')
    ensures Awaited(w')
  {
    if SqlInFlight(w') {
      if w'.log != w.log {
        var e := w'.log[|w.log|];
        assert w'.log == w.log + [e] && Sends(w, w');
        GrowPending(w.log, e);
      }
    }
  }

  /** A connection is in COPY_IN exactly when its session is, and waits only
      for the task that is waiting. */
  predicate Copying(w: World) {
    w.sock.Some? ==>
      var k := w.sock.value;
      if k.conn.None? then !CopyOpen(w.log, k.id)
      else
        var c := k.conn.value;
        && (!c.protocol.Broken? ==> (c.protocol.CopyIn? <==> CopyOpen(w.log, k.id)))
        && (c.protocol.NotifyWait? ==> InFlight(w) && w.job.value.req.wait)
        && (c.stage < USED ==> !c.protocol.CopyIn?)
  }

  lemma StepCopying(ssl: bool, w: World, w': World)
    requires Shaped(ssl, w) && Numbered(w) && Copying(w) && Steps(ssl, w, w')
    ensures Copying(w')
  {
    NeverOpened(w.log, w.sockets);
    if w'.log != w.log && w.sock.Some? {
      var e := w'.log[|w.log|];
      assert w'.log == w.log + [e];
      GrowCopy(w.log, e, w.sock.value.id);
    }
  }

  /** A session that has passed the guard is the one that was sent SQL last. */
  predicate Owned(w: World) {
    w.sock.Some? && w.sock.value.conn.Some? ==>
      var k := w.sock.value;
      k.conn.value.stage == USED && !k.conn.value.protocol.Broken? ==>
        LastSession(w.log).None? || LastSession(w.log) == Some(k.id)
  }

  lemma StepOwned(ssl: bool, w: World, w': World)
    requires Shaped(ssl, w) && Continuous(w) && Owned(w) && Copying(w) && Steps(ssl, w, w')
    ensures Owned(w')
  {
    if w'.log != w.log {
      var e := w'.log[|w.log|];
      assert w'.log == w.log + [e];
      GrowSession(w.log, e);
    }
  }

  /** And the session that was sent SQL last has passed it. */
  predicate Admitted(w: World) {
    && SessionKnown(w)
    && (w.sock.Some? && LastSession(w.log) == Some(w.sock.value.id) ==>
          w.sock.value.conn.Some? && w.sock.value.conn.value.stage == USED)
  }

  predicate SessionKnown(w: World) {
    LastSession(w.log).Some? ==> LastSession(w.log).value < w.sockets
  }

  lemma StepKnown(ssl: bool, w: World, w': World)
    requires Numbered(w) && SessionKnown(w) && Steps(ssl, w, w')
    ensures SessionKnown(w')
  {
    if w'.log != w.log {
      var e := w'.log[|w.log|];
      assert w'.log == w.log + [e];
      GrowSession(w.log, e);
    }
  }

  lemma StepAdmitted(ssl: bool, w: World, w': World)
    requires Shaped(ssl, w) && Numbered(w) && Admitted(w) && Steps(ssl, w, w')
    ensures Admitted(w')
  {
    StepKnown(ssl, w, w');
    if w'.log != w.log {
      var e := w'.log[|w.log|];
      assert w'.log == w.log + [e];
      GrowSession(w.log, e);
    }
  }

  /** The handle holds the last confirmed state, and so does the route when it
      holds a state at all. */
  predicate Agreed(w: World) {
    w.handle.lastTx == LastReady(w.log) && StateIsLast(w)
  }

  predicate StateIsLast(w: World) {
    IsTxState(w.route) ==> w.route == w.handle.lastTx
  }

  lemma StepState(ssl: bool, w: World, w': World)
    requires StateIsLast(w) && Steps(ssl, w, w')
    ensures StateIsLast(w')
  {
  }

  /** What a step does to the state in the handle. */
  lemma ReadyMoves(ssl: bool, w: World, w': World)
    requires Steps(ssl, w, w')
    ensures w'.log == w.log ==> w'.handle.lastTx == w.handle.lastTx
    ensures w'.log != w.log ==>
              && |w'.log| == |w.log| + 1
              && var e := w'.log[|w.log|];
                 w'.handle.lastTx
                 == if e.Disconnected? then IDLE
                    else if e.Answered? && !e.failed && e.ready then e.tx
                    else w.handle.lastTx
  {
  }

  lemma StepAgreed(ssl: bool, w: World, w': World)
    requires Agreed(w) && Steps(ssl, w, w')
    ensures Agreed(w')
  {
    StepState(ssl, w, w');
    ReadyMoves(ssl, w, w');
    if w'.log != w.log {
      StepExtends(ssl, w, w');
      GrowReady(w.log, w'.log[|w.log|]);
    }
  }

  function KeyIn(w: World): (int, bytes) {
    (w.handle.pid, w.handle.secret)
  }

  /** A task that was sent and is not in flight. */
  predicate SentBefore(w: World) {
    w.job.Some? && w.job.value.started && !InFlight(w)
  }

  /** The handle's key data are those of the session that answered last, or
      nothing; nothing, too, while a task that was sent is not in flight. */
  predicate Keyed(w: World) {
    KeyIn(w) == KeyOf(w.log) && Cleared(w)
  }

  predicate Cleared(w: World) {
    SentBefore(w) ==> KeyOf(w.log) == (0, [])
  }

  /** A task is sent before it can come back, and comes back when it fails. */
  lemma ComesBack(ssl: bool, w: World, w': World)
    requires Steps(ssl, w, w') && SentBefore(w')
    ensures w'.log == w.log ==> SentBefore(w)
    ensures w'.log != w.log ==> SentBefore(w) || w'.log[|w.log|].Lost?
    ensures w'.log != w.log ==> |w'.log| == |w.log| + 1 && !w'.log[|w.log|].Answered?
  {
  }

  lemma StepCleared(ssl: bool, w: World, w': World)
    requires Cleared(w) && Steps(ssl, w, w')
    ensures Cleared(w')
  {
    if SentBefore(w') {
      ComesBack(ssl, w, w');
      if w'.log != w.log {
        StepExtends(ssl, w, w');
        GrowKey(w.log, w'.log[|w.log|]);
      }
    }
  }

  /** What a step does to the key data in the handle. */
  lemma KeyMoves(ssl: bool, w: World, w': World)
    requires Steps(ssl, w, w')
    ensures w'.log == w.log ==> KeyIn(w') == KeyIn(w) || (KeyIn(w') == (0, []) && SentBefore(w))
    ensures w'.log != w.log ==>
              && |w'.log| == |w.log| + 1
              && var e := w'.log[|w.log|];
                 if e.Disconnected? || e.Lost? || (e.Answered? && e.failed) then KeyIn(w') == (0, [])
                 else if e.Answered? then KeyIn(w') == (e.pid, e.secret)
                 else KeyIn(w') == KeyIn(w) || (KeyIn(w') == (0, []) && SentBefore(w))
  {
  }

  lemma StepKeyed(ssl: bool, w: World, w': World)
    requires Keyed(w) && Steps(ssl, w, w')
    ensures Keyed(w')
  {
    KeyMoves(ssl, w, w');
    StepCleared(ssl, w, w');
    if w'.log != w.log {
      StepExtends(ssl, w, w');
      GrowKey(w.log, w'.log[|w.log|]);
    }
  }

  /** The route forbids SQL on a new session, and no session has passed the guard. */
  predicate Locked(w: World) {
    && w.route != NEW && w.route != IDLE && !SqlInFlight(w)
    && (w.sock.Some? && w.sock.value.conn.Some? ==>
          w.sock.value.conn.value.stage < USED || w.sock.value.conn.value.protocol.Broken?)
  }

  lemma StepLocked(ssl: bool, w: World, w': World)
    requires Shaped(ssl, w) && Copying(w) && Locked(w) && Steps(ssl, w, w')
    ensures w'.log == w.log + [Disconnected] || Locked(w')
  {
  }

  /** A task that was sent can only meet a locked route. */
  predicate Spent(w: World) {
    w.job.Some? && !w.job.value.req.disconnect ==>
      if w.job.value.started then w.job.value.InFlight() || Locked(w) else !SentBy(w.log, w.job.value.id)
  }

  lemma StepSpent(ssl: bool, w: World, w': World)
    requires Shaped(ssl, w) && Numbered(w) && Continuous(w) && Copying(w) && Spent(w) && Steps(ssl, w, w')
    ensures Spent(w')
  {
  }

  /** A session marked broken stays so. */
  predicate Marked(w: World) {
    w.sock.Some? && MarkedIn(w.log, w.sock.value.id) ==>
      w.sock.value.conn.Some? && w.sock.value.conn.value.protocol.Broken?
  }

  lemma StepMarked(ssl: bool, w: World, w': World)
    requires Shaped(ssl, w) && Numbered(w) && Marked(w) && Steps(ssl, w, w')
    ensures Marked(w')
  {
  }

  predicate DoomedIsLocked(w: World) {
    Doomed(w.log) ==> Locked(w)
  }

  lemma StepDoomed(ssl: bool, w: World, w': World)
    requires Shaped(ssl, w) && Continuous(w) && Copying(w) && DoomedIsLocked(w) && Steps(ssl, w, w')
    ensures DoomedIsLocked(w')
  {
    if w'.log != w.log {
      var e := w'.log[|w.log|];
      assert w'.log == w.log + [e];
      GrowDoomed(w.log, e);
    }
    if Doomed(w.log) {
      StepLocked(ssl, w, w');
    }
  }

  // ---- runs ----

  ghost predicate Next(ssl: bool, w: World, w': World) {
    exists m :: Allowed(w, m) && w' == Do(ssl, w, m)
  }

  ghost predicate Path(ssl: bool, ws: seq<World>) {
    forall i :: 0 < i < |ws| ==> Next(ssl, ws[i - 1], ws[i])
  }

  /** A run: sockets may outlive a failed startup, but nothing is sent on them. */
  ghost predicate IsRun(ssl: bool, ws: seq<World>) {
    ws != [] && ws[0] == INITIAL && Path(ssl, ws)
  }

  ghost predicate Inv(ssl: bool, w: World) {
    && Shaped(ssl, w) && Staged(ssl, w) && Numbered(w) && Continuous(w) && Awaited(w) && Owned(w) && Admitted(w)
    && Copying(w) && Agreed(w) && Keyed(w) && Spent(w) && Marked(w) && DoomedIsLocked(w)
  }

  lemma StepInv(ssl: bool, w: World, w': World)
    requires Inv(ssl, w) && Next(ssl, w, w')
    ensures Inv(ssl, w') && Steps(ssl, w, w')
  {
    var m :| Allowed(w, m) && w' == Do(ssl, w, m);
    DoSteps(ssl, w, m);
    StepShaped(ssl, w, w');
    StepStaged(ssl, w, w');
    StepNumbered(ssl, w, w');
    StepContinuous(ssl, w, w');
    StepAwaited(ssl, w, w');
    StepOwned(ssl, w, w');
    StepAdmitted(ssl, w, w');
    StepCopying(ssl, w, w');
    StepAgreed(ssl, w, w');
    StepKeyed(ssl, w, w');
    StepSpent(ssl, w, w');
    StepMarked(ssl, w, w');
    StepDoomed(ssl, w, w');
  }

  /** Whether a session may be sent SQL, given what was sent before. */
  predicate Tolerated(past: seq<Event>, session: nat, req: Request) {
    LastSession(past).None? || LastSession(past) == Some(session) || (Resumable(past) && !req.copy && !req.wait)
  }

  /** What holds of every event of every run, given the events before it. */
  predicate Lawful(ssl: bool, past: seq<Event>, e: Event) {
    match e
    case Handshaken(s) => TlsAccepted(s) in past
    case Started(s, _, _) => ssl ==> Handshaken(s) in past
    case Sent(s, j, req) =>
      && StartedIn(past, s) && !MarkedIn(past, s)
      && (!req.disconnect ==>
            Tolerated(past, s, req) && !Doomed(past) && (CopyOpen(past, s) <==> req.CopyTask()) && !SentBy(past, j))
    case Answered(s, req, _, _, _, _, pid, secret) =>
      && Pending(past).Some? && Pending(past).value.session == s && Pending(past).value.req == req
      && Started(s, pid, secret) in past
    case Refused(s, req, error, _) => error == ECONNRESET ==> LastSession(past).Some? && !Tolerated(past, s, req)
    case _ => true
  }

  lemma StepLawful(ssl: bool, w: World, w': World, e: Event)
    requires Inv(ssl, w) && Steps(ssl, w, w') && w'.log == w.log + [e]
    ensures Lawful(ssl, w.log, e)
  {
    assert w'.log[|w.log|] == e;
  }

  lemma {:induction false} RunInv(ssl: bool, ws: seq<World>, i: nat)
    requires IsRun(ssl, ws) && i < |ws|
    ensures Inv(ssl, ws[i])
  {
    if i > 0 {
      RunInv(ssl, ws, i - 1);
      StepInv(ssl, ws[i - 1], ws[i]);
    }
  }

  ghost predicate AllLawful(ssl: bool, log: seq<Event>) {
    forall j :: 0 <= j < |log| ==> Lawful(ssl, log[..j], log[j])
  }

  lemma LawfulGrows(ssl: bool, log: seq<Event>, e: Event)
    requires AllLawful(ssl, log) && Lawful(ssl, log, e)
    ensures AllLawful(ssl, log + [e])
  {
    forall j | 0 <= j < |log + [e]|
      ensures Lawful(ssl, (log + [e])[..j], (log + [e])[j])
    {
      if j < |log| {
        assert (log + [e])[..j] == log[..j];
      } else {
        assert (log + [e])[..j] == log;
      }
    }
  }

  lemma StepAllLawful(ssl: bool, w: World, w': World)
    requires Inv(ssl, w) && Steps(ssl, w, w') && AllLawful(ssl, w.log)
    ensures AllLawful(ssl, w'.log)
  {
    StepExtends(ssl, w, w');
    if w'.log != w.log {
      var e := w'.log[|w.log|];
      StepLawful(ssl, w, w', e);
      LawfulGrows(ssl, w.log, e);
    }
  }

  lemma RunStep(ssl: bool, ws: seq<World>, i: nat)
    requires IsRun(ssl, ws) && 0 < i < |ws|
    ensures Inv(ssl, ws[i - 1]) && Steps(ssl, ws[i - 1], ws[i])
  {
    RunInv(ssl, ws, i - 1);
    StepInv(ssl, ws[i - 1], ws[i]);
  }

  lemma RunAllLawful(ssl: bool, ws: seq<World>, i: nat)
    requires IsRun(ssl, ws) && 0 < i < |ws| && AllLawful(ssl, ws[i - 1].log)
    ensures AllLawful(ssl, ws[i].log)
  {
    RunStep(ssl, ws, i);
    StepAllLawful(ssl, ws[i - 1], ws[i]);
  }

  // ---- where events come from ----

  /** The startup answer that makes a session started. */
  predicate Welcomes(r: StartupReply) {
    !r.isError && (r.version == 0 || r.version / 0x1_0000 == 3)
  }

  /** What the move that logs an event was, and what it was an answer to. */
  predicate Earned(ssl: bool, w: World, m: Move, e: Event)
    requires Enabled(w, m)
  {
    match e
    case TlsAccepted(s) =>
      ssl && m.Reply? && m.tlsReply == 'S' as int && m.created && w.sock.value.id == s
    case Handshaken(s) => ssl && m.Reply? && w.sock.value.id == s
    case Started(s, pid, secret) =>
      m.Reply? && Welcomes(m.startup) && m.startup.pid == pid && m.startup.secret == secret && w.sock.value.id == s
    case Sent(s, j, req) => m.Send? && w.sock.value.id == s && w.job.value.id == j && w.job.value.req == req
    case Refused(s, req, _, _) => m.Send? && w.sock.value.id == s && w.job.value.req == req
    case Answered(s, req, copyIn, ready, tx, _, _, _) =>
      && m.Respond? && w.sock.value.id == s && w.job.value.req == req
      && m.answer.copyIn == copyIn && m.answer.ready == ready && m.answer.tx == tx
    case Lost(s) => (m.Fail? || m.Respond?) && w.sock.value.id == s
    case Disconnected => w.job.Some? && w.job.value.req.disconnect
  }

  lemma FailEarns(ssl: bool, w: World, m: Move, e: Event)
    requires (m.Fail? || m.Unreachable?) && Enabled(w, m) && Shaped(ssl, w) && Do(ssl, w, m).log == w.log + [e]
    ensures Earned(ssl, w, m, e)
  {
    assert Do(ssl, w, m).log[|w.log|] == e;
  }

  lemma SendEarns(ssl: bool, w: World, m: Move, e: Event)
    requires m.Send? && Allowed(w, m) && Shaped(ssl, w) && Do(ssl, w, m).log == w.log + [e]
    ensures Earned(ssl, w, m, e)
  {
    assert Do(ssl, w, m).log[|w.log|] == e;
  }

  lemma ReplyEarns(ssl: bool, w: World, m: Move, e: Event)
    requires m.Reply? && Enabled(w, m) && Shaped(ssl, w) && Do(ssl, w, m).log == w.log + [e]
    ensures Earned(ssl, w, m, e)
  {
    assert Do(ssl, w, m).log[|w.log|] == e;
  }

  lemma RespondEarns(ssl: bool, w: World, m: Move, e: Event)
    requires m.Respond? && Enabled(w, m) && Shaped(ssl, w) && Do(ssl, w, m).log == w.log + [e]
    ensures Earned(ssl, w, m, e)
  {
    assert Do(ssl, w, m).log[|w.log|] == e;
  }

  /** An event is logged by the move that is its cause. */
  lemma MoveEarns(ssl: bool, w: World, m: Move, e: Event)
    requires Allowed(w, m) && Shaped(ssl, w) && Do(ssl, w, m).log == w.log + [e]
    ensures Earned(ssl, w, m, e)
  {
    match m
    case Unreachable(_) => FailEarns(ssl, w, m, e);
    case Fail(_) => FailEarns(ssl, w, m, e);
    case Send(_, _, _, _) => SendEarns(ssl, w, m, e);
    case Reply(_, _, _, _) => ReplyEarns(ssl, w, m, e);
    case Respond(_, _, _) => RespondEarns(ssl, w, m, e);
    case _ =>
  }

  /** Between the logs `a` and `b` event `j` of `log` was added. */
  predicate Adds(a: seq<Event>, b: seq<Event>, log: seq<Event>, j: nat)
    requires j < |log|
  {
    a == log[..j] && b == log[..j] + [log[j]]
  }

  lemma AddsLater(a: seq<Event>, b: seq<Event>, log: seq<Event>, log': seq<Event>, j: nat)
    requires j < |log| && log <= log' && Adds(a, b, log, j)
    ensures Adds(a, b, log', j)
  {
    assert log'[..j] == log[..j];
  }

  lemma AddsLast(log: seq<Event>, log': seq<Event>)
    requires log <= log' && |log'| == |log| + 1
    ensures Adds(log, log', log', |log|)
  {
  }

  /** Every event of a run was logged by one step of it: the step before world `i`. */
  lemma {:induction false} LoggedBy(ssl: bool, ws: seq<World>, n: nat, j: nat) returns (i: nat)
    requires IsRun(ssl, ws) && n < |ws| && j < |ws[n].log|
    ensures 0 < i <= n && Adds(ws[i - 1].log, ws[i].log, ws[n].log, j)
    decreases n
  {
    if n == 0 {
      assert false;
    } else {
      RunGrows(ssl, ws, n);
      if j < |ws[n - 1].log| {
        i := LoggedBy(ssl, ws, n - 1, j);
        AddsLater(ws[i - 1].log, ws[i].log, ws[n - 1].log, ws[n].log, j);
      } else {
        i := n;
        AddsLast(ws[n - 1].log, ws[n].log);
      }
    }
  }

  lemma RunGrows(ssl: bool, ws: seq<World>, n: nat)
    requires IsRun(ssl, ws) && 0 < n < |ws|
    ensures ws[n - 1].log <= ws[n].log && |ws[n].log| <= |ws[n - 1].log| + 1
  {
    RunStep(ssl, ws, n);
    StepExtends(ssl, ws[n - 1], ws[n]);
  }

  /** Every event of every run has its cause: the move and the world it was made in. */
  lemma EventsAreEarned(ssl: bool, ws: seq<World>, n: nat, j: nat) returns (i: nat, m: Move)
    requires IsRun(ssl, ws) && n < |ws| && j < |ws[n].log|
    ensures 0 < i <= n && Adds(ws[i - 1].log, ws[i].log, ws[n].log, j)
    ensures Allowed(ws[i - 1], m) && ws[i] == Do(ssl, ws[i - 1], m) && Earned(ssl, ws[i - 1], m, ws[n].log[j])
  {
    i := LoggedBy(ssl, ws, n, j);
    m := StepMove(ssl, ws, i);
    RunShape(ssl, ws, i - 1);
    MoveEarns(ssl, ws[i - 1], m, ws[n].log[j]);
  }

  lemma StepMove(ssl: bool, ws: seq<World>, i: nat) returns (m: Move)
    requires IsRun(ssl, ws) && 0 < i < |ws|
    ensures Allowed(ws[i - 1], m) && ws[i] == Do(ssl, ws[i - 1], m)
  {
    assert Next(ssl, ws[i - 1], ws[i]);
    m :| Allowed(ws[i - 1], m) && ws[i] == Do(ssl, ws[i - 1], m);
  }

  lemma RunShape(ssl: bool, ws: seq<World>, i: nat)
    requires IsRun(ssl, ws) && i < |ws|
    ensures Shaped(ssl, ws[i])
  {
    RunInv(ssl, ws, i);
  }

  /** Every event of every run is lawful. */
  lemma {:induction false} RunLawful(ssl: bool, ws: seq<World>, i: nat)
    requires IsRun(ssl, ws) && i < |ws|
    ensures AllLawful(ssl, ws[i].log)
  {
    if i > 0 {
      RunLawful(ssl, ws, i - 1);
      RunAllLawful(ssl, ws, i);
    }
  }
}
