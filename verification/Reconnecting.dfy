/** When SQL may go out on a new session, exactly, and how a route is recovered. */
module Reconnecting {
  import opened Wrappers
  import opened Wire
  import opened Transaction
  import opened Session
  import opened Journal
  import opened Runs
  import opened Continuity

  /** Exactly when a task's SQL goes out on a started connection, read off the log:
      it is COPY just when the session has a COPY open, and either no SQL was sent
      since the last disconnect, or the last was sent on this session, or an idle
      answer stands and the request tolerates a new session. */
  lemma SentIff(ssl: bool, ws: seq<World>, n: nat)
    requires IsRun(ssl, ws) && n < |ws| && ws[n].job.Some? && !Waiting(ws[n]) && ws[n].sock.Some?
    requires !ws[n].job.value.req.disconnect
    requires var c := ws[n].sock.value.conn; c.Some? && c.value.stage >= STARTED && !c.value.protocol.Broken?
    ensures var w, req, k := ws[n], ws[n].job.value.req, ws[n].sock.value;
            MessageOut(ssl, true, k.seqNo, k.conn, req, w.route, w.job.value.started).message.User?
            <==> (CopyOpen(w.log, k.id) <==> req.CopyTask()) && Tolerated(w.log, k.id, req)
  {
    RunInv(ssl, ws, n);
  }

  // ---- paths ----

  lemma IsNext(ssl: bool, w: World, m: Move)
    requires Allowed(w, m)
    ensures Next(ssl, w, Do(ssl, w, m))
  {
  }

  /** `b` goes on from the last world of `a`. */
  lemma PathJoin(ssl: bool, a: seq<World>, b: seq<World>)
    requires a != [] && Path(ssl, a) && Path(ssl, [a[|a| - 1]] + b)
    ensures Path(ssl, a + b)
  {
    var c, d := a + b, [a[|a| - 1]] + b;
    forall i | 0 < i < |c|
      ensures Next(ssl, c[i - 1], c[i])
    {
      if i >= |a| {
        assert c[i] == d[i - |a| + 1] && c[i - 1] == d[i - |a|];
        assert Next(ssl, d[i - |a|], d[i - |a| + 1]);
      }
    }
  }

  lemma RunJoin(ssl: bool, ws: seq<World>, ext: seq<World>)
    requires IsRun(ssl, ws) && Path(ssl, [ws[|ws| - 1]] + ext)
    ensures IsRun(ssl, ws + ext)
  {
    PathJoin(ssl, ws, ext);
  }

  const STARTUP_OK := StartupReply(false, 0, [], 0, 0, 0, [])
  const STARTUP_ERROR := StartupReply(true, 0, Text("3D000"), 0, 0, 0, [])
  const ANY_ANSWER := Answer(false, 0, false, false, 0, 0, 0, [])

  /** Send; should it be refused, the socket is dropped and the task is over. */
  const SEND := Send(false, false, false, ANY_ANSWER)

  /** What the startup of a session leaves in the log. */
  function StartLog(ssl: bool, id: nat): seq<Event> {
    (if ssl then [TlsAccepted(id), Handshaken(id)] else []) + [Started(id, 0, [])]
  }

  /** `w` with a session opened for its task that has come as far as `stage`. */
  function AtStage(w: World, stage: nat, seqNo: nat, log: seq<Event>): World
    requires w.job.Some?
  {
    w.(sock := Some(Socket(w.sockets, seqNo, Some(Conn(stage, Ready, 0, 0, [])))), sockets := w.sockets + 1,
       job := Some(w.job.value.(isUser := stage == STARTED)), log := w.log + log)
  }

  /** The world once its task's new session is started. */
  function AfterStart(ssl: bool, w: World): World
    requires w.job.Some?
  {
    AtStage(w, STARTED, if ssl then 3 else 1, StartLog(ssl, w.sockets))
  }

  predicate ReadyToStart(w: World) {
    w.job.Some? && w.job.value.phase.Dispatch? && w.sock.None? && !w.job.value.req.cancel
  }

  lemma PlainStart(w: World) returns (ws: seq<World>)
    requires ReadyToStart(w)
    ensures |ws| == 3 && Path(false, [w] + ws) && ws[2] == AfterStart(false, w)
  {
    var reply := Reply(0, true, STARTUP_OK, false);
    var w1 := Do(false, w, Open);
    var w2 := Do(false, w1, SEND);
    var w3 := Do(false, w2, reply);
    IsNext(false, w, Open);
    IsNext(false, w1, SEND);
    IsNext(false, w2, reply);
    ws := [w1, w2, w3];
  }

  lemma TlsAccept(w: World) returns (ws: seq<World>)
    requires ReadyToStart(w)
    ensures |ws| == 3 && Path(true, [w] + ws)
    ensures ws[2] == AtStage(w, 1, 1, [TlsAccepted(w.sockets)])
  {
    var accept := Reply('S' as int, true, STARTUP_OK, false);
    var w1 := Do(true, w, Open);
    var w2 := Do(true, w1, SEND);
    var w3 := Do(true, w2, accept);
    IsNext(true, w, Open);
    IsNext(true, w1, SEND);
    IsNext(true, w2, accept);
    ws := [w1, w2, w3];
  }

  lemma TlsShake(w: World, w3: World) returns (ws: seq<World>)
    requires ReadyToStart(w) && w3 == AtStage(w, 1, 1, [TlsAccepted(w.sockets)])
    ensures |ws| == 2 && Path(true, [w3] + ws)
    ensures ws[1] == AtStage(w, 2, 2, [TlsAccepted(w.sockets), Handshaken(w.sockets)])
  {
    var reply := Reply(0, true, STARTUP_OK, false);
    var w4 := Do(true, w3, SEND);
    var w5 := Do(true, w4, reply);
    IsNext(true, w3, SEND);
    IsNext(true, w4, reply);
    ws := [w4, w5];
  }

  lemma TlsFinish(w: World, w5: World) returns (ws: seq<World>)
    requires ReadyToStart(w) && w5 == AtStage(w, 2, 2, [TlsAccepted(w.sockets), Handshaken(w.sockets)])
    ensures |ws| == 2 && Path(true, [w5] + ws) && ws[1] == AfterStart(true, w)
  {
    var reply := Reply(0, true, STARTUP_OK, false);
    var w6 := Do(true, w5, SEND);
    var w7 := Do(true, w6, reply);
    IsNext(true, w5, SEND);
    IsNext(true, w6, reply);
    ws := [w6, w7];
  }

  /** From any world with a task and no socket, a session can be opened and started,
      without and with TLS. */
  lemma Starts(ssl: bool, w: World) returns (ws: seq<World>)
    requires ReadyToStart(w)
    ensures ws != [] && Path(ssl, [w] + ws) && ws[|ws| - 1] == AfterStart(ssl, w)
  {
    if ssl {
      var a := TlsAccept(w);
      var b := TlsShake(w, a[2]);
      PathJoin(ssl, [w] + a, b);
      var c := TlsFinish(w, b[1]);
      PathJoin(ssl, [w] + a + b, c);
      ws := a + b + c;
      assert [w] + ws == [w] + a + b + c;
    } else {
      ws := PlainStart(w);
    }
  }

  /** A new task gets its session started: the moves up to its first own message. */
  lemma Arrives(ssl: bool, w: World, req: Request) returns (ws: seq<World>)
    requires w.AtRest() && req.Built() && !req.cancel
    ensures ws != [] && Path(ssl, [w] + ws)
    ensures ws[|ws| - 1] == AfterStart(ssl, Do(ssl, w, Begin(req)))
  {
    var w1 := Do(ssl, w, Begin(req));
    IsNext(ssl, w, Begin(req));
    var rest := Starts(ssl, w1);
    PathJoin(ssl, [w, w1], rest);
    ws := [w1] + rest;
    assert [w] + ws == [w, w1] + rest;
  }

  /** Arriving, and then one more move. */
  lemma ArrivesAnd(ssl: bool, w: World, req: Request, m: Move) returns (ws: seq<World>)
    requires w.AtRest() && req.Built() && !req.cancel
    requires var s := AfterStart(ssl, Do(ssl, w, Begin(req))); Allowed(s, m)
    ensures ws != [] && Path(ssl, [w] + ws)
    ensures ws[|ws| - 1] == Do(ssl, AfterStart(ssl, Do(ssl, w, Begin(req))), m)
  {
    var front := Arrives(ssl, w, req);
    var s := front[|front| - 1];
    IsNext(ssl, s, m);
    PathJoin(ssl, [w] + front, [Do(ssl, s, m)]);
    ws := front + [Do(ssl, s, m)];
    assert [w] + ws == [w] + front + [Do(ssl, s, m)];
  }

  // ---- reconnecting ----

  lemma SendsFirst(ssl: bool, w: World, req: Request)
    requires w.AtRest() && req.Built() && !req.copy && !req.cancel && !req.disconnect
    requires w.route == NEW || (w.route == IDLE && !req.wait)
    ensures var s := AfterStart(ssl, Do(ssl, w, Begin(req)));
            && Do(ssl, s, SEND).log == w.log + StartLog(ssl, w.sockets) + [Sent(w.sockets, w.jobs, req)]
            && SqlInFlight(Do(ssl, s, SEND)) && Do(ssl, s, SEND).job.value.req == req
  {
  }

  /** After an idle loss (or on an unused route) a request that tolerates it goes
      out on the next session by itself, with no disconnect. */
  lemma ReconnectsByItself(ssl: bool, ws: seq<World>, req: Request) returns (ext: seq<World>)
    requires IsRun(ssl, ws) && ws[|ws| - 1].AtRest()
    requires req.Built() && !req.copy && !req.wait && !req.cancel && !req.disconnect
    requires LastSession(ws[|ws| - 1].log).None? || Resumable(ws[|ws| - 1].log)
    ensures ext != [] && IsRun(ssl, ws + ext)
    ensures var w := ws[|ws| - 1];
            && ext[|ext| - 1].log == w.log + StartLog(ssl, w.sockets) + [Sent(w.sockets, w.jobs, req)]
            && SqlInFlight(ext[|ext| - 1]) && ext[|ext| - 1].job.value.req == req
  {
    var w := ws[|ws| - 1];
    RouteMeans(ssl, ws, |ws| - 1);
    SendsFirst(ssl, w, req);
    ext := ArrivesAnd(ssl, w, req, SEND);
    RunJoin(ssl, ws, ext);
  }

  /** SQL was sent since `log`, and no disconnect has succeeded. */
  predicate SqlSince(log: seq<Event>, log': seq<Event>) {
    log <= log' && Disconnected !in log'[|log|..] && exists e :: e in log'[|log|..] && IsSql(e)
  }

  /** Some way of going on from the run sends SQL before a disconnect succeeds. */
  ghost predicate CanSendSql(ssl: bool, ws: seq<World>)
    requires ws != []
  {
    exists ext: seq<World> ::
      ext != [] && IsRun(ssl, ws + ext) && SqlSince(ws[|ws| - 1].log, ext[|ext| - 1].log)
  }

  const QUERY := Request(false, false, false, false, false, false)

  lemma QueryIsSql(log: seq<Event>, ssl: bool, session: nat, job: nat)
    ensures SqlSince(log, log + StartLog(ssl, session) + [Sent(session, job, QUERY)])
  {
    var tail := StartLog(ssl, session) + [Sent(session, job, QUERY)];
    var log' := log + StartLog(ssl, session) + [Sent(session, job, QUERY)];
    assert log' == log + tail && log'[|log|..] == tail;
    assert tail[|tail| - 1] in tail;
  }

  lemma CanSend(ssl: bool, ws: seq<World>)
    requires IsRun(ssl, ws) && ws[|ws| - 1].AtRest()
    requires LastSession(ws[|ws| - 1].log).None? || Resumable(ws[|ws| - 1].log)
    ensures CanSendSql(ssl, ws)
  {
    var w := ws[|ws| - 1];
    var ext := ReconnectsByItself(ssl, ws, QUERY);
    QueryIsSql(w.log, ssl, w.sockets, w.jobs);
  }

  lemma CannotSend(ssl: bool, ws: seq<World>, ext: seq<World>)
    requires ws != [] && ext != [] && IsRun(ssl, ws + ext) && ws[|ws| - 1].sock.None?
    requires LastSession(ws[|ws| - 1].log).Some? && !Resumable(ws[|ws| - 1].log)
    ensures !SqlSince(ws[|ws| - 1].log, ext[|ext| - 1].log)
  {
    var all := ws + ext;
    assert all[|ws| - 1] == ws[|ws| - 1] && all[|all| - 1] == ext[|ext| - 1];
    StickyAfterLoss(ssl, all, |ws| - 1, |all| - 1);
  }

  /** A failed attempt to reach the server that is not repeated ends a task. */
  const GIVE_UP := Unreachable(Failure(ANY_ANSWER, OtherError, 0, false))

  lemma GivesUp(ssl: bool, ws: seq<World>) returns (w: World)
    requires IsRun(ssl, ws) && ws[|ws| - 1].sock.None? && ws[|ws| - 1].job.Some?
    ensures IsRun(ssl, ws + [w]) && w.AtRest() && w.log == ws[|ws| - 1].log
  {
    var last := ws[|ws| - 1];
    RunInv(ssl, ws, |ws| - 1);
    IsNext(ssl, last, GIVE_UP);
    w := Do(ssl, last, GIVE_UP);
    RunJoin(ssl, ws, [w]);
  }

  lemma OneMore(ws: seq<World>, w: World, ext: seq<World>) returns (more: seq<World>)
    requires ext != []
    ensures more != [] && more[|more| - 1] == ext[|ext| - 1] && ws + more == ws + [w] + ext
  {
    more := [w] + ext;
    assert ws + [w] + ext == ws + ([w] + ext);
  }

  lemma CanSendLater(ssl: bool, ws: seq<World>, w: World)
    requires ws != [] && w.log == ws[|ws| - 1].log && CanSendSql(ssl, ws + [w])
    ensures CanSendSql(ssl, ws)
  {
    var all := ws + [w];
    assert all[|all| - 1] == w;
    var ext: seq<World> :| ext != [] && IsRun(ssl, all + ext) && SqlSince(w.log, ext[|ext| - 1].log);
    var more := OneMore(ws, w, ext);
    assert IsRun(ssl, ws + more) && SqlSince(ws[|ws| - 1].log, more[|more| - 1].log);
  }

  /** Without a socket, whether a task is waiting or not, SQL can go out again
      before a disconnect exactly when none was sent since the last one, or an idle
      answer stands. */
  lemma ReconnectsIff(ssl: bool, ws: seq<World>)
    requires IsRun(ssl, ws) && ws[|ws| - 1].sock.None?
    ensures var log := ws[|ws| - 1].log; CanSendSql(ssl, ws) <==> LastSession(log).None? || Resumable(log)
  {
    var log := ws[|ws| - 1].log;
    if LastSession(log).None? || Resumable(log) {
      if ws[|ws| - 1].job.Some? {
        var w := GivesUp(ssl, ws);
        CanSend(ssl, ws + [w]);
        CanSendLater(ssl, ws, w);
      } else {
        CanSend(ssl, ws);
      }
    } else {
      forall ext: seq<World> | ext != [] && IsRun(ssl, ws + ext)
        ensures !SqlSince(log, ext[|ext| - 1].log)
      {
        CannotSend(ssl, ws, ext);
      }
    }
  }

  // ---- a refused request ends it ----

  /** The log of a session that is started and then refused a request. */
  function RefusalLog(ssl: bool, session: nat, req: Request): seq<Event> {
    StartLog(ssl, session) + [Event.Refused(session, req, ECONNRESET, false)]
  }

  lemma RefusesCold(ssl: bool, w: World, req: Request)
    requires w.AtRest() && req.Built() && !req.cancel && !req.disconnect
    requires w.route != NEW && (w.route != IDLE || req.copy || req.wait)
    ensures var w' := Do(ssl, AfterStart(ssl, Do(ssl, w, Begin(req))), SEND);
            && w'.AtRest() && w'.route == UNKNOWN && w'.sockets == w.sockets + 1
            && w'.log == w.log + RefusalLog(ssl, w.sockets, req)
  {
  }

  lemma IsRefused(ssl: bool, w: World, req: Request) returns (ws: seq<World>)
    requires w.AtRest() && req.Built() && !req.cancel && !req.disconnect
    requires w.route != NEW && (w.route != IDLE || req.copy || req.wait)
    ensures ws != [] && Path(ssl, [w] + ws)
    ensures var w' := ws[|ws| - 1];
            && w'.AtRest() && w'.route == UNKNOWN && w'.sockets == w.sockets + 1
            && w'.log == w.log + RefusalLog(ssl, w.sockets, req)
  {
    RefusesCold(ssl, w, req);
    ws := ArrivesAnd(ssl, w, req, SEND);
  }

  lemma {:induction false} StaysConfirmed(log: seq<Event>, more: seq<Event>)
    requires Confirmed(log) && forall e :: e in more ==> !e.Disconnected? && !e.Sent? && !e.Answered?
    ensures Confirmed(log + more)
    decreases |more|
  {
    if more == [] {
      assert log + more == log;
    } else {
      var e := more[|more| - 1];
      StaysConfirmed(log, more[..|more| - 1]);
      GrowConfirmed(log + more[..|more| - 1], e);
      assert log + more == log + more[..|more| - 1] + [e];
    }
  }

  lemma RefusedTwice(ssl: bool, w: World, cold: Request, query: Request) returns (ws: seq<World>)
    requires w.AtRest() && w.route == IDLE && Confirmed(w.log)
    requires cold.Built() && !cold.cancel && !cold.disconnect && (cold.copy || cold.wait)
    requires query.Built() && !query.cancel && !query.disconnect
    ensures ws != [] && Path(ssl, [w] + ws)
    ensures var w' := ws[|ws| - 1];
            && w'.AtRest() && w'.route == UNKNOWN && Confirmed(w'.log)
            && w'.log == w.log + RefusalLog(ssl, w.sockets, cold) + RefusalLog(ssl, w.sockets + 1, query)
  {
    var a := IsRefused(ssl, w, cold);
    var w1 := a[|a| - 1];
    var b := IsRefused(ssl, w1, query);
    PathJoin(ssl, [w] + a, b);
    ws := a + b;
    assert [w] + ws == [w] + a + b;
    StaysConfirmed(w.log, RefusalLog(ssl, w.sockets, cold));
    StaysConfirmed(w1.log, RefusalLog(ssl, w.sockets + 1, query));
  }

  lemma RunRefused(ssl: bool, ws: seq<World>, cold: Request) returns (all: seq<World>)
    requires IsRun(ssl, ws) && ws[|ws| - 1].AtRest() && Resumable(ws[|ws| - 1].log)
    requires cold.Built() && !cold.cancel && !cold.disconnect && (cold.copy || cold.wait)
    ensures ws <= all && IsRun(ssl, all)
    ensures var w, w' := ws[|ws| - 1], all[|all| - 1];
            && w'.AtRest() && w'.route == UNKNOWN && Confirmed(w'.log)
            && w'.log == w.log + RefusalLog(ssl, w.sockets, cold) + RefusalLog(ssl, w.sockets + 1, QUERY)
  {
    IdleAtEnd(ssl, ws);
    var ext := RefusedTwice(ssl, ws[|ws| - 1], cold, QUERY);
    all := RunMore(ssl, ws, ext);
  }

  lemma RunMore(ssl: bool, ws: seq<World>, ext: seq<World>) returns (all: seq<World>)
    requires IsRun(ssl, ws) && ext != [] && Path(ssl, [ws[|ws| - 1]] + ext)
    ensures ws <= all && IsRun(ssl, all) && all[|all| - 1] == ext[|ext| - 1]
  {
    RunJoin(ssl, ws, ext);
    all := ws + ext;
  }

  lemma IdleAtEnd(ssl: bool, ws: seq<World>)
    requires IsRun(ssl, ws) && Resumable(ws[|ws| - 1].log)
    ensures ws[|ws| - 1].route == IDLE && Confirmed(ws[|ws| - 1].log)
  {
    RouteMeans(ssl, ws, |ws| - 1);
    ResumableIsConfirmed(ws[|ws| - 1].log);
  }

  lemma UnknownCannotSend(ssl: bool, ws: seq<World>, w: World)
    requires IsRun(ssl, ws) && w == ws[|ws| - 1] && w.AtRest() && w.route == UNKNOWN
    ensures !CanSendSql(ssl, ws)
  {
    RouteMeans(ssl, ws, |ws| - 1);
    ReconnectsIff(ssl, ws);
  }

  /** The promise that a query reconnects by itself when the last answer was idle
      does not survive a refusal: after any run at rest on an idle route, a COPY or
      a notification wait that is refused on the replacement session leaves a plain
      query refused too, and all SQL until a disconnect, though the last answer is
      still the idle one and nothing has been sent since. */
  lemma RefusalEndsReconnecting(ssl: bool, ws: seq<World>, cold: Request) returns (all: seq<World>)
    requires IsRun(ssl, ws) && ws[|ws| - 1].AtRest() && Resumable(ws[|ws| - 1].log)
    requires cold.Built() && !cold.cancel && !cold.disconnect && (cold.copy || cold.wait)
    ensures ws <= all && IsRun(ssl, all) && all[|all| - 1].AtRest()
    ensures var w, w' := ws[|ws| - 1], all[|all| - 1];
            && Confirmed(w'.log)
            && w'.log == w.log + RefusalLog(ssl, w.sockets, cold) + RefusalLog(ssl, w.sockets + 1, QUERY)
    ensures !CanSendSql(ssl, all)
  {
    all := RunRefused(ssl, ws, cold);
    UnknownCannotSend(ssl, all, all[|all| - 1]);
  }

  const IDLE_ANSWER := Answer(false, 0, false, true, IDLE, 0, 0, [])

  lemma IdleEnds(ssl: bool, w: World)
    requires SqlInFlight(w) && w.job.value.isUser && w.job.value.started && w.sock.Some?
    ensures Enabled(w, Respond(IDLE_ANSWER, 0, false))
    ensures var w' := Do(ssl, w, Respond(IDLE_ANSWER, 0, false)); w'.AtRest() && Resumable(w'.log)
  {
    var w' := Do(ssl, w, Respond(IDLE_ANSWER, 0, false));
    var e := w'.log[|w.log|];
    assert w'.log == w.log + [e] && IsIdleAnswer(e);
    GrowResumable(w.log, e);
  }

  /** There are such runs: one query, answered, and its socket let go. */
  lemma IdleRun(ssl: bool) returns (ws: seq<World>)
    ensures IsRun(ssl, ws) && ws[|ws| - 1].AtRest() && Resumable(ws[|ws| - 1].log)
  {
    var front := QueryRun(ssl);
    var w := front[|front| - 1];
    IdleEnds(ssl, w);
    var w' := Do(ssl, w, Respond(IDLE_ANSWER, 0, false));
    IsNext(ssl, w, Respond(IDLE_ANSWER, 0, false));
    ws := RunMore(ssl, front, [w']);
  }

  lemma QueryRun(ssl: bool) returns (ws: seq<World>)
    ensures IsRun(ssl, ws)
    ensures var w := ws[|ws| - 1];
            SqlInFlight(w) && w.sock.Some? && w.job.value.isUser && w.job.value.started
  {
    var start := [INITIAL];
    var ext := ReconnectsByItself(ssl, start, QUERY);
    ws := start + ext;
    InFlightShape(ssl, ws, ext[|ext| - 1]);
  }

  lemma InFlightShape(ssl: bool, ws: seq<World>, w: World)
    requires IsRun(ssl, ws) && w == ws[|ws| - 1] && SqlInFlight(w)
    ensures w.sock.Some? && w.job.value.isUser && w.job.value.started
  {
    RunInv(ssl, ws, |ws| - 1);
  }

  // ---- recovering a route ----

  const DISCONNECT := Request(false, false, false, false, true, false)

  /** The peer closes on the Terminate message. */
  const CLOSED := Fail(Failure(ANY_ANSWER, SysError, ECONNRESET, false))

  lemma DisconnectCloses(ssl: bool, w: World)
    requires w.AtRest()
    ensures var s := Do(ssl, AfterStart(ssl, Do(ssl, w, Begin(DISCONNECT))), SEND);
            && Enabled(s, CLOSED)
            && var w' := Do(ssl, s, CLOSED);
               w'.AtRest() && w'.route == NEW && w'.handle == FRESH_HANDLE
               && w'.log == w.log + StartLog(ssl, w.sockets) + [Sent(w.sockets, w.jobs, DISCONNECT), Disconnected]
  {
  }

  /** Whatever the route holds, a disconnect task recovers it. */
  lemma DisconnectRecovers(ssl: bool, ws: seq<World>) returns (ext: seq<World>)
    requires IsRun(ssl, ws) && ws[|ws| - 1].AtRest()
    ensures ext != [] && IsRun(ssl, ws + ext)
    ensures var w, w' := ws[|ws| - 1], ext[|ext| - 1];
            && w'.AtRest() && w'.route == NEW && w'.handle == FRESH_HANDLE
            && w'.log == w.log + StartLog(ssl, w.sockets) + [Sent(w.sockets, w.jobs, DISCONNECT), Disconnected]
  {
    var w := ws[|ws| - 1];
    DisconnectCloses(ssl, w);
    var front := ArrivesAnd(ssl, w, DISCONNECT, SEND);
    var s := front[|front| - 1];
    IsNext(ssl, s, CLOSED);
    PathJoin(ssl, [w] + front, [Do(ssl, s, CLOSED)]);
    ext := front + [Do(ssl, s, CLOSED)];
    assert [w] + ext == [w] + front + [Do(ssl, s, CLOSED)];
    RunJoin(ssl, ws, ext);
  }

  // ---- sockets that outlive a failed startup ----

  /** The user's request is reached before the startup is complete exactly on a
      connection that was used before and has no context. */
  lemma RequestBeforeStartup(ssl: bool, guarded: bool, seqNo: nat, conn: Option<Conn>, req: Request,
                             route: int, started: bool)
    requires !req.cancel
    requires conn.Some? ==> seqNo > 0 && (if ssl then 1 else STARTED) <= conn.value.stage <= USED
    ensures var m := MessageOut(ssl, guarded, seqNo, conn, req, route, started).message;
            (m.User? || m.Refused?) && (conn.None? || conn.value.stage < STARTED) <==> conn.None? && seqNo > 0
  {
  }

  /** A startup that fails before there is a context, on a socket that is kept. */
  lemma StrayIsLeft(ssl: bool, w: World, req: Request) returns (ws: seq<World>)
    requires w.AtRest() && req.Built() && !req.cancel
    ensures |ws| == 4 && Path(ssl, [w] + ws) && ws[3].Stray()
    ensures ws[3] == w.(sock := Some(Socket(w.sockets, 1, None)), sockets := w.sockets + 1, jobs := w.jobs + 1)
  {
    var w1 := Do(ssl, w, Begin(req));
    var w2 := Do(ssl, w1, Open);
    var w3 := Do(ssl, w2, SEND);
    IsNext(ssl, w, Begin(req));
    IsNext(ssl, w1, Open);
    IsNext(ssl, w2, SEND);
    var w4 := StartupFails(ssl, w, w3, req);
    ws := [w1, w2, w3, w4];
  }

  lemma StartupFails(ssl: bool, w: World, w3: World, req: Request) returns (w4: World)
    requires w.AtRest() && req.Built() && !req.cancel
    requires w3 == Do(ssl, Do(ssl, Do(ssl, w, Begin(req)), Open), SEND)
    ensures Next(ssl, w3, w4) && w4.Stray()
    ensures w4 == w.(sock := Some(Socket(w.sockets, 1, None)), sockets := w.sockets + 1, jobs := w.jobs + 1)
  {
    var reply := Reply(0, false, STARTUP_ERROR, true);
    IsNext(ssl, w3, reply);
    w4 := Do(ssl, w3, reply);
  }

  lemma StrayWouldSend(ssl: bool, w: World, req: Request) returns (w': World)
    requires w.Stray() && w.job.None? && req.Built() && !req.cancel
    ensures Next(ssl, w, w') && w'.Stray() && w'.route == w.route && Enabled(w', SEND)
    ensures Do(ssl, w', SEND).log == w.log + [Sent(w.sock.value.id, w.jobs, req)]
  {
    w' := Do(ssl, w, Begin(req));
    IsNext(ssl, w, Begin(req));
  }

  /** Why no request is sent on such a socket in a run: from any world at rest a
      path leads to a world where the next request, were it sent on one, would go
      out whatever the route says. */
  lemma KeptSocketSkipsTheGuard(ssl: bool, w: World, first: Request, req: Request) returns (ws: seq<World>)
    requires w.AtRest() && first.Built() && !first.cancel && req.Built() && !req.cancel
    ensures |ws| == 5 && Path(ssl, [w] + ws)
    ensures var s := ws[4];
            && s.Stray() && s.route == w.route && s.log == w.log && Enabled(s, SEND)
            && Do(ssl, s, SEND).log == w.log + [Sent(w.sockets, w.jobs + 1, req)]
  {
    var a := StrayIsLeft(ssl, w, first);
    var s := StrayWouldSend(ssl, a[3], req);
    PathJoin(ssl, [w] + a, [s]);
    ws := a + [s];
    assert [w] + ws == [w] + a + [s];
  }
}
