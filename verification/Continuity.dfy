/** What holds over every run of tasks on one fixed route, read off the log of
    what was sent where. */
module Continuity {
  import opened Wrappers
  import opened Wire
  import opened Transaction
  import opened Session
  import opened Journal
  import opened Runs
  import Response
  import Receiving
  import Backend
  import opened Framing

  /** What the task reads off its response. */
  function AnswerOf(r: Response.Reply): Answer {
    Answer(r.isError, r.internalError, r.copyIn, r.ready, r.tx,
           r.backendKey.pid, r.backendKey.key, r.backendKey.secret)
  }

  /** Whatever bytes arrive, in whatever chunks, the answer is one that the runs
      below consider. */
  lemma AnswersAreSound(auth: Response.AuthOracle, r: Response.Reply, chunks: seq<bytes>)
    requires var st := Response.Receiver(Response.Cleared(r), [], []);
             !Response.Feed(Response.StepOf(auth), st, Response.Concat(chunks)).verdict.Overrun?
    ensures var st := Response.Receiver(Response.Cleared(r), [], []);
            AnswerOf(Response.FeedAll(Response.StepOf(auth), st, chunks).after.reply).Sound()
  {
    Receiving.ReadyIsTrustworthy(auth, r, chunks);
  }

  /** And its transaction byte is the server's: confirmed exactly when the last
      frame handled is ReadyForQuery with that byte, 'I', 'T' or 'E'. */
  lemma AnswerIsWhatWasSaid(auth: Response.AuthOracle, r: Response.Reply, chunks: seq<bytes>)
    requires Response.Passable(Response.StepOf(auth), Response.Cleared(r), Response.Concat(chunks))
    ensures var st := Response.Receiver(Response.Cleared(r), [], []);
            var after := Response.FeedAll(Response.StepOf(auth), st, chunks).after;
            var answer, fs := AnswerOf(after.reply), Walk(after.seen).0;
            && (answer.ready <==>
                  && fs != [] && fs[|fs| - 1] == Frame('Z' as int, [answer.tx])
                  && (answer.tx == 'I' as int || answer.tx == 'T' as int || answer.tx == 'E' as int))
            && (fs == [] || fs[|fs| - 1] != Frame('Z' as int, [answer.tx]) ==> answer.tx == r.tx)
  {
    Backend.ReadyIsWhatWasSaid(auth, r, chunks);
  }

  /** What the task reads off its startup response. */
  function StartupOf(r: Response.Reply): StartupReply {
    StartupReply(r.isError, r.internalError, r.error.sqlState, r.version,
                 r.backendKey.pid, r.backendKey.key, r.backendKey.secret)
  }

  /** Whatever a server says to a startup and in whatever chunks it arrives: the
      session counts as started exactly when neither an error report nor a refused
      authentication ends the response and the version is one the client speaks,
      and an error report fails the task with the error of its SQLSTATE. */
  lemma LoginIff(auth: Response.AuthOracle, r: Response.Reply, ms: seq<Backend.Said>, chunks: seq<bytes>,
                 conn: Option<Conn>)
    requires r.isStartup && !r.isError && r.internalError == 0
    requires Backend.AllSayable(ms) && AllFit(Backend.SayAll(ms)) && Backend.Listen(auth, r, ms).2
    requires Response.Concat(chunks) == EncodeAll(Backend.SayAll(ms))
    ensures var n := Backend.Listen(auth, r, ms).1;
            var reply := Response.FeedAll(Response.StepOf(auth), Response.Receiver(r, [], []), chunks).after.reply;
            var finish := FinishStartup(conn, StartupOf(reply));
            && n > 0
            && (finish.Again? <==>
                  && !ms[n - 1].Errs? && !ms[n - 1].Authenticates?
                  && (reply.version == 0 || reply.version / 0x1_0000 == 3))
            && (finish.Again? ==>
                  finish.conn.pid == reply.backendKey.pid && finish.conn.secret == reply.backendKey.secret)
            && (ms[n - 1].Errs? ==>
                  var state := Backend.Latest(ms[n - 1].items, 'C' as int, r.error.sqlState);
                  finish == Failed(if state == Text("28P01") || state == Text("28000") then 14003 else 14006))
  {
    Backend.ConversationIsHeard(auth, r, ms, chunks);
    Backend.StartupFailsIff(auth, r, ms);
  }

  predicate NoSql(log: seq<Event>, i: nat, j: nat)
    requires j <= |log|
  {
    forall k :: i < k < j ==> !IsSql(log[k])
  }

  predicate NoDisconnect(log: seq<Event>, i: nat, j: nat)
    requires j <= |log|
  {
    forall k :: i < k < j ==> !log[k].Disconnected?
  }

  lemma {:induction false} SessionIs(log: seq<Event>, i: nat, j: nat)
    requires i < j <= |log| && IsSql(log[i]) && NoSql(log, i, j) && NoDisconnect(log, i, j)
    ensures LastSession(log[..j]) == Some(log[i].session)
    decreases j
  {
    assert log[..j] == log[..j - 1] + [log[j - 1]];
    GrowSession(log[..j - 1], log[j - 1]);
    if i < j - 1 {
      SessionIs(log, i, j - 1);
    }
  }

  lemma {:induction false} PendingIs(log: seq<Event>, i: nat, j: nat)
    requires i < j <= |log| && IsSql(log[i]) && NoSql(log, i, j)
    ensures Pending(log[..j]).None? || Pending(log[..j]) == Some(log[i])
    decreases j
  {
    assert log[..j] == log[..j - 1] + [log[j - 1]];
    GrowPending(log[..j - 1], log[j - 1]);
    if i < j - 1 {
      PendingIs(log, i, j - 1);
    }
  }

  /** SQL never continues on a replacement session unless a disconnect lies in
      between or the old session was confirmed idle and the request tolerates it. */
  lemma GuardSafety(ssl: bool, ws: seq<World>, n: nat, i: nat, j: nat)
    requires IsRun(ssl, ws) && n < |ws| && i < j < |ws[n].log|
    requires IsSql(ws[n].log[i]) && IsSql(ws[n].log[j]) && NoSql(ws[n].log, i, j)
    ensures var log := ws[n].log;
            log[i].session != log[j].session ==>
              || (exists k :: i < k < j && log[k].Disconnected?)
              || (&& !log[j].req.copy && !log[j].req.wait
                  && exists k :: i < k < j && IsIdleAnswer(log[k]) && log[k].session == log[i].session
                                 && log[k].req == log[i].req)
  {
    var log := ws[n].log;
    RunLawful(ssl, ws, n);
    if log[i].session != log[j].session && NoDisconnect(log, i, j) {
      assert Lawful(ssl, log[..j], log[j]);
      SessionIs(log, i, j);
      var k := ResumableBy(log, j);
      assert i < k;
      assert Lawful(ssl, log[..k], log[k]);
      PendingIs(log, i, k);
    }
  }

  lemma LockedSendsNoSql(ssl: bool, w: World, w': World, e: Event)
    requires Steps(ssl, w, w') && Locked(w') && w'.log == w.log + [e]
    ensures !IsSql(e)
  {
    assert w'.log[|w.log|] == e;
  }

  predicate NoSqlSince(log: seq<Event>, log': seq<Event>) {
    log <= log' && (Disconnected !in log'[|log|..] ==> forall e :: e in log'[|log|..] ==> !IsSql(e))
  }

  lemma StepSticky(ssl: bool, past: seq<Event>, w: World, w': World)
    requires Shaped(ssl, w) && Copying(w) && Steps(ssl, w, w') && NoSqlSince(past, w.log)
    requires Disconnected !in w.log[|past|..] ==> Locked(w)
    ensures NoSqlSince(past, w'.log)
    ensures Disconnected !in w'.log[|past|..] ==> Locked(w')
  {
    StepExtends(ssl, w, w');
    if w'.log != w.log {
      var e := w'.log[|w.log|];
      assert w'.log[|past|..] == w.log[|past|..] + [e];
      if Disconnected !in w'.log[|past|..] {
        StepLocked(ssl, w, w');
        LockedSendsNoSql(ssl, w, w', e);
      }
    } else if Disconnected !in w.log[|past|..] {
      StepLocked(ssl, w, w');
    }
  }

  predicate StickyAt(past: seq<Event>, w: World) {
    NoSqlSince(past, w.log) && (Disconnected !in w.log[|past|..] ==> Locked(w))
  }

  /** What every step from a reachable state keeps, a run keeps. */
  lemma {:induction false} RunKeeps(ssl: bool, ws: seq<World>, good: World -> bool, n: nat, m: nat)
    requires IsRun(ssl, ws) && n <= m < |ws| && good(ws[n])
    requires forall w, w' :: Inv(ssl, w) && Steps(ssl, w, w') && good(w) ==> good(w')
    ensures good(ws[m])
    decreases m
  {
    if n < m {
      RunKeeps(ssl, ws, good, n, m - 1);
      RunStep(ssl, ws, m);
    }
  }

  lemma StickyRun(ssl: bool, past: seq<Event>, ws: seq<World>, n: nat, m: nat)
    requires IsRun(ssl, ws) && n <= m < |ws| && StickyAt(past, ws[n])
    ensures StickyAt(past, ws[m])
  {
    forall w, w' | Inv(ssl, w) && Steps(ssl, w, w') && StickyAt(past, w)
      ensures StickyAt(past, w')
    {
      StepSticky(ssl, past, w, w');
    }
    RunKeeps(ssl, ws, w => StickyAt(past, w), n, m);
  }

  lemma LostIsLocked(ssl: bool, ws: seq<World>, n: nat)
    requires IsRun(ssl, ws) && n < |ws| && ws[n].sock.None? && ws[n].route != NEW && ws[n].route != IDLE
    ensures Locked(ws[n])
  {
    RunInv(ssl, ws, n);
  }

  /** Once the socket is lost with the route in a transaction, in a failed one or
      unknown, nothing sends SQL on any session before a disconnect succeeds. */
  lemma StickyRejection(ssl: bool, ws: seq<World>, n: nat, m: nat)
    requires IsRun(ssl, ws) && n <= m < |ws|
    requires ws[n].sock.None? && ws[n].route != NEW && ws[n].route != IDLE
    ensures NoSqlSince(ws[n].log, ws[m].log)
    ensures Disconnected !in ws[m].log[|ws[n].log|..] ==> Locked(ws[m])
  {
    var past := ws[n].log;
    LostIsLocked(ssl, ws, n);
    StickyRun(ssl, past, ws, n, m);
  }

  /** What the route number stands for, in every reachable state: it is new when
      no SQL was sent since the last disconnect, and idle when an idle answer
      stands that no SQL, no disconnect and no refusal of the guard came after. */
  lemma RouteMeans(ssl: bool, ws: seq<World>, n: nat)
    requires IsRun(ssl, ws) && n < |ws|
    ensures ws[n].route == NEW <==> LastSession(ws[n].log).None?
    ensures ws[n].route == IDLE <==> Resumable(ws[n].log)
  {
    RunInv(ssl, ws, n);
  }

  /** The same loss in terms of the log: the last SQL is not confirmed idle (it was
      in a transaction, in a COPY, waiting, or had no answer at all), or the guard
      has refused a request since. */
  lemma StickyAfterLoss(ssl: bool, ws: seq<World>, n: nat, m: nat)
    requires IsRun(ssl, ws) && n <= m < |ws|
    requires ws[n].sock.None? && LastSession(ws[n].log).Some? && !Resumable(ws[n].log)
    ensures NoSqlSince(ws[n].log, ws[m].log)
  {
    RouteMeans(ssl, ws, n);
    StickyRejection(ssl, ws, n, m);
  }

  /** The guard refuses nothing but COPY and notification waits while an idle
      answer stands, so an idle route is an idle answer after which no such request
      was refused, no SQL was sent and nothing was disconnected. */
  lemma IdleIff(ssl: bool, ws: seq<World>, n: nat)
    requires IsRun(ssl, ws) && n < |ws|
    ensures ws[n].route == IDLE <==> exists k :: 0 <= k < |ws[n].log| && StandsUnrefused(ws[n].log, k, |ws[n].log|)
  {
    var log := ws[n].log;
    RunLawful(ssl, ws, n);
    RouteMeans(ssl, ws, n);
    assert log[..|log|] == log;
    if Resumable(log) {
      var k := ResumableBy(log, |log|);
      assert StandsUnrefused(log, k, |log|);
    }
    forall k | 0 <= k < |log| && StandsUnrefused(log, k, |log|)
      ensures Resumable(log)
    {
      UnrefusedStands(ssl, log, k, |log|);
    }
  }

  /** An idle answer, and since then no SQL, no disconnect and no refusal by the
      guard of a COPY or a notification wait. */
  predicate StandsUnrefused(log: seq<Event>, k: nat, j: nat)
    requires k < j <= |log|
  {
    IsIdleAnswer(log[k])
    && forall i :: k < i < j ==>
         !log[i].Disconnected? && !IsSql(log[i]) && !(IsReset(log[i]) && (log[i].req.copy || log[i].req.wait))
  }

  lemma NextStands(ssl: bool, past: seq<Event>, e: Event)
    requires Lawful(ssl, past, e) && Resumable(past) && Pending(past).None?
    requires !e.Disconnected? && !IsSql(e) && !(IsReset(e) && (e.req.copy || e.req.wait))
    ensures !e.Answered? && !IsReset(e) && Resumable(past + [e]) && Pending(past + [e]).None?
  {
    GrowResumable(past, e);
    GrowPending(past, e);
  }

  lemma FirstStands(past: seq<Event>, e: Event)
    requires IsIdleAnswer(e)
    ensures Resumable(past + [e]) && Pending(past + [e]).None?
  {
    GrowResumable(past, e);
    GrowPending(past, e);
  }

  lemma OneMoreStands(log: seq<Event>, k: nat, j: nat)
    requires k < j < |log| && Stands(log, k, j)
    requires var e := log[j]; !e.Disconnected? && !IsSql(e) && !IsReset(e) && !e.Answered?
    ensures Stands(log, k, j + 1)
  {
  }

  lemma {:induction false} UnrefusedStands(ssl: bool, log: seq<Event>, k: nat, j: nat)
    requires AllLawful(ssl, log) && k < j <= |log| && StandsUnrefused(log, k, j)
    ensures Stands(log, k, j) && Resumable(log[..j]) && Pending(log[..j]).None?
    decreases j
  {
    var past, e := log[..j - 1], log[j - 1];
    assert log[..j] == past + [e];
    if k == j - 1 {
      FirstStands(past, e);
    } else {
      UnrefusedStands(ssl, log, k, j - 1);
      assert Lawful(ssl, past, e);
      NextStands(ssl, past, e);
      OneMoreStands(log, k, j - 1);
    }
  }

  /** A failed transaction keeps SQL out until a disconnect succeeds, whatever
      becomes of its socket. */
  lemma {:induction false} FailedTransaction(ssl: bool, ws: seq<World>, n: nat, k: nat, j: nat)
    requires IsRun(ssl, ws) && n < |ws| && k < j < |ws[n].log|
    requires ws[n].log[k].Answered? && ws[n].log[k].tx == 'E' as int && NoDisconnect(ws[n].log, k, j)
    ensures !IsSql(ws[n].log[j])
  {
    RunLawful(ssl, ws, n);
    DoomLasts(ssl, ws[n].log, k, j);
    assert Lawful(ssl, ws[n].log[..j], ws[n].log[j]);
  }

  lemma {:induction false} DoomLasts(ssl: bool, log: seq<Event>, k: nat, j: nat)
    requires AllLawful(ssl, log) && k < j <= |log| && NoDisconnect(log, k, j)
    requires log[k].Answered? && log[k].tx == 'E' as int
    ensures Doomed(log[..j]) && Pending(log[..j]).None?
    decreases j
  {
    var e := log[j - 1];
    assert log[..j] == log[..j - 1] + [e];
    GrowPending(log[..j - 1], e);
    GrowDoomed(log[..j - 1], e);
    if k < j - 1 {
      DoomLasts(ssl, log, k, j - 1);
      assert Lawful(ssl, log[..j - 1], e);
    }
  }

  /** No task's SQL is sent twice, however often the task is retried. */
  lemma SentOnce(ssl: bool, ws: seq<World>, n: nat, i: nat, j: nat)
    requires IsRun(ssl, ws) && n < |ws| && i < j < |ws[n].log|
    requires IsSql(ws[n].log[i]) && IsSql(ws[n].log[j])
    ensures ws[n].log[i].job != ws[n].log[j].job
  {
    var log := ws[n].log;
    RunLawful(ssl, ws, n);
    assert Lawful(ssl, log[..j], log[j]);
    assert log[i] == log[..j][i];
  }

  lemma {:induction false} CopyOpenSince(log: seq<Event>, k: nat, j: nat)
    requires k < j <= |log| && log[k].Answered? && log[k].copyIn
    requires forall h :: k < h < j && log[h].Answered? ==> log[h].session != log[k].session
    ensures CopyOpen(log[..j], log[k].session)
    decreases j
  {
    assert log[..j] == log[..j - 1] + [log[j - 1]];
    GrowCopy(log[..j - 1], log[j - 1], log[k].session);
    if k < j - 1 {
      CopyOpenSince(log, k, j - 1);
    }
  }

  /** After a CopyInResponse a session is sent COPY requests or a disconnect, and
      nothing else, until it answers again. */
  lemma CopyDiscipline(ssl: bool, ws: seq<World>, n: nat, k: nat, j: nat)
    requires IsRun(ssl, ws) && n < |ws| && k < j < |ws[n].log|
    requires ws[n].log[k].Answered? && ws[n].log[k].copyIn
    requires ws[n].log[j].Sent? && ws[n].log[j].session == ws[n].log[k].session
    requires forall h :: k < h < j && ws[n].log[h].Answered? ==> ws[n].log[h].session != ws[n].log[k].session
    ensures ws[n].log[j].req.CopyTask() || ws[n].log[j].req.disconnect
  {
    RunLawful(ssl, ws, n);
    CopyOpenSince(ws[n].log, k, j);
    assert Lawful(ssl, ws[n].log[..j], ws[n].log[j]);
  }

  /** A COPY request is only ever sent to a session with a COPY open. */
  lemma CopyNeedsCopyIn(ssl: bool, ws: seq<World>, n: nat, j: nat) returns (k: nat)
    requires IsRun(ssl, ws) && n < |ws| && j < |ws[n].log|
    requires IsSql(ws[n].log[j]) && ws[n].log[j].req.CopyTask()
    ensures k < j && ws[n].log[k].Answered? && ws[n].log[k].session == ws[n].log[j].session && ws[n].log[k].copyIn
  {
    RunLawful(ssl, ws, n);
    assert Lawful(ssl, ws[n].log[..j], ws[n].log[j]);
    k := OpenedBy(ws[n].log, ws[n].log[j].session, j);
  }

  lemma {:induction false} OpenedBy(log: seq<Event>, session: nat, j: nat) returns (k: nat)
    requires j <= |log| && CopyOpen(log[..j], session)
    ensures k < j && log[k].Answered? && log[k].session == session && log[k].copyIn
    decreases j
  {
    if j == 0 {
      assert false;
    } else {
      var e := log[j - 1];
      assert log[..j] == log[..j - 1] + [e];
      GrowCopy(log[..j - 1], e, session);
      if e.Answered? && e.session == session && e.copyIn {
        k := j - 1;
      } else {
        k := OpenedBy(log, session, j - 1);
      }
    }
  }

  /** Nothing is sent on a session after it was marked broken. */
  lemma BrokenIsSilent(ssl: bool, ws: seq<World>, n: nat, k: nat, j: nat)
    requires IsRun(ssl, ws) && n < |ws| && k < j < |ws[n].log|
    requires ws[n].log[k].Refused? && ws[n].log[k].marked && ws[n].log[j].Sent?
    ensures ws[n].log[j].session != ws[n].log[k].session
  {
    RunLawful(ssl, ws, n);
    assert Lawful(ssl, ws[n].log[..j], ws[n].log[j]);
    assert ws[n].log[k] == ws[n].log[..j][k];
  }

  /** A connection waits for notifications only while the task that asked for
      them is in flight. */
  lemma WaitEndsWithItsTask(ssl: bool, ws: seq<World>, n: nat)
    requires IsRun(ssl, ws) && n < |ws|
    requires ws[n].sock.Some? && ws[n].sock.value.conn.Some? && ws[n].sock.value.conn.value.protocol.NotifyWait?
    ensures ws[n].job.Some? && ws[n].job.value.InFlight() && ws[n].job.value.req.wait
  {
    RunInv(ssl, ws, n);
  }

  /** The handle always holds the last ReadyForQuery byte since the last
      disconnect, and a route that holds a state holds the same one. */
  lemma HandleAgrees(ssl: bool, ws: seq<World>, n: nat)
    requires IsRun(ssl, ws) && n < |ws|
    ensures ws[n].handle.lastTx == LastReady(ws[n].log)
    ensures IsTxState(ws[n].route) ==> ws[n].route == ws[n].handle.lastTx
  {
    RunInv(ssl, ws, n);
  }

  lemma {:induction false} KeyedBy(log: seq<Event>, j: nat) returns (k: nat)
    requires j <= |log| && KeyOf(log[..j]) != (0, [])
    ensures k < j && log[k].Answered? && !log[k].failed && KeyOf(log[..j]) == (log[k].pid, log[k].secret)
    ensures forall i :: k < i < j ==> !log[i].Answered? && !log[i].Lost? && !log[i].Disconnected?
    decreases j
  {
    if j == 0 {
      assert false;
    } else {
      var e := log[j - 1];
      assert log[..j] == log[..j - 1] + [e];
      GrowKey(log[..j - 1], e);
      if e.Answered? {
        k := j - 1;
      } else {
        k := KeyedBy(log, j - 1);
      }
    }
  }

  lemma KeyIsLogged(ssl: bool, ws: seq<World>, n: nat)
    requires IsRun(ssl, ws) && n < |ws|
    ensures (ws[n].handle.pid, ws[n].handle.secret) == KeyOf(ws[n].log)
  {
    RunInv(ssl, ws, n);
  }

  lemma StartedWithKey(ssl: bool, log: seq<Event>, k: nat) returns (s: nat)
    requires AllLawful(ssl, log) && k < |log| && log[k].Answered?
    ensures s < k && log[s] == Started(log[k].session, log[k].pid, log[k].secret)
  {
    assert Lawful(ssl, log[..k], log[k]);
    s :| 0 <= s < k && log[..k][s] == Started(log[k].session, log[k].pid, log[k].secret);
  }

  /** Key data in the handle are those with which the session that answered last
      was started, and no started request has failed since. */
  lemma HandleKey(ssl: bool, ws: seq<World>, n: nat)
    requires IsRun(ssl, ws) && n < |ws|
    ensures var w := ws[n];
            (w.handle.pid, w.handle.secret) != (0, []) ==>
              exists s, k :: 0 <= s < k < |w.log| && w.log[k].Answered? && !w.log[k].failed
                && w.log[s] == Started(w.log[k].session, w.handle.pid, w.handle.secret)
                && forall i :: k < i < |w.log| ==> !w.log[i].Answered? && !w.log[i].Lost? && !w.log[i].Disconnected?
  {
    var w := ws[n];
    KeyIsLogged(ssl, ws, n);
    RunLawful(ssl, ws, n);
    assert w.log[..|w.log|] == w.log;
    if (w.handle.pid, w.handle.secret) != (0, []) {
      var k := KeyedBy(w.log, |w.log|);
      var s := StartedWithKey(ssl, w.log, k);
    }
  }

  /** A failed started request and a successful disconnect clear the key data,
      until a session answers. */
  lemma KeyIsCleared(ssl: bool, ws: seq<World>, n: nat, k: nat)
    requires IsRun(ssl, ws) && n < |ws| && k < |ws[n].log|
    requires var e := ws[n].log[k]; e.Disconnected? || e.Lost? || (e.Answered? && e.failed)
    requires forall i :: k < i < |ws[n].log| ==> !ws[n].log[i].Answered?
    ensures ws[n].handle.pid == 0 && ws[n].handle.secret == []
  {
    var w := ws[n];
    KeyIsLogged(ssl, ws, n);
    assert w.log[..|w.log|] == w.log;
    if KeyOf(w.log) != (0, []) {
      var i := KeyedBy(w.log, |w.log|);
    }
  }

  /** Before anything of a user's is sent on a session, the session has passed
      every stage of its startup, in order, and the last of them was the answer
      `m.startup`, no error and of a version the client speaks, with the key data
      of the session. */
  lemma StartupOrder(ssl: bool, ws: seq<World>, n: nat, j: nat)
    returns (t: nat, h: nat, s: nat, i: nat, m: Move)
    requires IsRun(ssl, ws) && n < |ws| && j < |ws[n].log| && ws[n].log[j].Sent?
    ensures var log, id := ws[n].log, ws[n].log[j].session;
            && s < j && log[s].Started? && log[s].session == id
            && (ssl ==> t < h < s && log[h] == Handshaken(id) && log[t] == TlsAccepted(id))
    ensures 0 < i <= n && Adds(ws[i - 1].log, ws[i].log, ws[n].log, s)
    ensures Allowed(ws[i - 1], m) && ws[i] == Do(ssl, ws[i - 1], m) && m.Reply? && Welcomes(m.startup)
    ensures ws[n].log[s] == Started(ws[n].log[j].session, m.startup.pid, m.startup.secret)
  {
    var log := ws[n].log;
    RunLawful(ssl, ws, n);
    s := StartedBefore(ssl, log, j);
    t, h := 0, 0;
    if ssl {
      t, h := TlsBefore(log, s);
    }
    i, m := EventsAreEarned(ssl, ws, n, s);
  }

  lemma StartedBefore(ssl: bool, log: seq<Event>, j: nat) returns (s: nat)
    requires AllLawful(ssl, log) && j < |log| && log[j].Sent?
    ensures s < j && log[s].Started? && log[s].session == log[j].session
  {
    assert Lawful(ssl, log[..j], log[j]);
    var e :| e in log[..j] && e.Started? && e.session == log[j].session;
    s :| 0 <= s < j && log[..j][s] == e;
  }

  lemma TlsBefore(log: seq<Event>, s: nat) returns (t: nat, h: nat)
    requires AllLawful(true, log) && s < |log| && log[s].Started?
    ensures t < h < s && log[h] == Handshaken(log[s].session) && log[t] == TlsAccepted(log[s].session)
  {
    assert Lawful(true, log[..s], log[s]);
    h :| 0 <= h < s && log[..s][h] == Handshaken(log[s].session);
    assert Lawful(true, log[..h], log[h]);
    t :| 0 <= t < h && log[..h][t] == TlsAccepted(log[s].session);
  }

  function StageOf(k: Socket): nat {
    if k.conn.Some? then k.conn.value.stage else 0
  }

  /** The socket `k` has been given out, and where it is still in use it has not
      fallen back. */
  predicate AtLeast(k: Socket, w: World) {
    k.id < w.sockets && (w.sock.Some? && w.sock.value.id == k.id ==> StageOf(k) <= StageOf(w.sock.value))
  }

  lemma StepAtLeast(ssl: bool, k: Socket, w: World, w': World)
    requires AtLeast(k, w) && Steps(ssl, w, w')
    ensures AtLeast(k, w')
  {
  }

  /** On one socket the stage never goes back. */
  lemma StageNeverDecreases(ssl: bool, ws: seq<World>, n: nat, m: nat)
    requires IsRun(ssl, ws) && n <= m < |ws| && ws[n].sock.Some? && ws[m].sock.Some?
    requires ws[n].sock.value.id == ws[m].sock.value.id
    ensures StageOf(ws[n].sock.value) <= StageOf(ws[m].sock.value)
  {
    var k := ws[n].sock.value;
    RunInv(ssl, ws, n);
    forall w, w' | Inv(ssl, w) && Steps(ssl, w, w') && AtLeast(k, w)
      ensures AtLeast(k, w')
    {
      StepAtLeast(ssl, k, w, w');
    }
    RunKeeps(ssl, ws, w => AtLeast(k, w), n, m);
  }
}
