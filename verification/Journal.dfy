/** The log of one fixed route: what was sent where, what came of it, and what
    can be read off it. */
module Journal {
  import opened Wrappers
  import opened Wire
  import opened Transaction
  import opened Session

  /** `Answered`: SQL was answered; `failed`: the answer carried an internal error
      and counts as the task's failure.  `Lost`: a started request failed without
      an answer that counts.  `Refused`: a request was not sent; `marked`: its
      connection was marked broken and kept. */
  datatype Event =
    | TlsAccepted(session: nat)
    | Handshaken(session: nat)
    | Started(session: nat, pid: int, secret: bytes)
    | Sent(session: nat, job: nat, req: Request)
    | Answered(session: nat, req: Request, copyIn: bool, ready: bool, tx: int, failed: bool, pid: int, secret: bytes)
    | Lost(session: nat)
    | Refused(session: nat, req: Request, error: int, marked: bool)
    | Disconnected

  predicate IsSql(e: Event) {
    e.Sent? && !e.req.disconnect
  }

  /** An answer that ended with ReadyForQuery 'I'. */
  predicate IsIdleAnswer(e: Event) {
    e.Answered? && !e.failed && e.ready && e.tx == IDLE
  }

  /** A refusal by the guard. */
  predicate IsReset(e: Event) {
    e.Refused? && e.error == ECONNRESET
  }

  /** The session that was last sent SQL since the last disconnect. */
  function LastSession(log: seq<Event>): Option<nat>
    decreases |log|
  {
    if log == [] then None
    else
      var e := log[|log| - 1];
      if e.Disconnected? then None
      else if IsSql(e) then Some(e.session)
      else LastSession(log[..|log| - 1])
  }

  /** The SQL sent last, while nothing has answered it. */
  function Pending(log: seq<Event>): (sql: Option<Event>)
    ensures sql.Some? ==> sql.value.Sent?
    decreases |log|
  {
    if log == [] then None
    else
      var e := log[|log| - 1];
      if e.Disconnected? || e.Answered? then None
      else if IsSql(e) then Some(e)
      else Pending(log[..|log| - 1])
  }

  /** The SQL sent last was answered, and the answer ended with ReadyForQuery 'I'. */
  predicate Confirmed(log: seq<Event>)
    decreases |log|
  {
    log != [] &&
    var e := log[|log| - 1];
    if e.Disconnected? || IsSql(e) then false
    else if e.Answered? then IsIdleAnswer(e)
    else Confirmed(log[..|log| - 1])
  }

  /** The same, and the guard has refused nothing since. */
  predicate Resumable(log: seq<Event>)
    decreases |log|
  {
    log != [] &&
    var e := log[|log| - 1];
    if e.Disconnected? || IsSql(e) || IsReset(e) then false
    else if e.Answered? then IsIdleAnswer(e)
    else Resumable(log[..|log| - 1])
  }

  /** The last ReadyForQuery byte since the last disconnect, 'I' if there is none. */
  function LastReady(log: seq<Event>): int
    decreases |log|
  {
    if log == [] then IDLE
    else
      var e := log[|log| - 1];
      if e.Disconnected? then IDLE
      else if e.Answered? && !e.failed && e.ready then e.tx
      else LastReady(log[..|log| - 1])
  }

  /** The key data of the session that answered last, unless a started request
      has failed or a disconnect has succeeded since. */
  function KeyOf(log: seq<Event>): (int, bytes)
    decreases |log|
  {
    if log == [] then (0, [])
    else
      var e := log[|log| - 1];
      if e.Disconnected? || e.Lost? || (e.Answered? && e.failed) then (0, [])
      else if e.Answered? then (e.pid, e.secret)
      else KeyOf(log[..|log| - 1])
  }

  /** The session has answered CopyInResponse, and no later answer ended the COPY. */
  predicate CopyOpen(log: seq<Event>, session: nat)
    decreases |log|
  {
    log != [] &&
    var e := log[|log| - 1];
    if e.Answered? && e.session == session then
      e.copyIn || (!e.req.wait && !IsTxState(e.tx) && CopyOpen(log[..|log| - 1], session))
    else CopyOpen(log[..|log| - 1], session)
  }

  /** The last answer since the last disconnect reported a failed transaction. */
  predicate Doomed(log: seq<Event>)
    decreases |log|
  {
    log != [] &&
    var e := log[|log| - 1];
    if e.Disconnected? || IsSql(e) then false
    else if e.Answered? then e.tx == 'E' as int
    else Doomed(log[..|log| - 1])
  }

  predicate SentBy(log: seq<Event>, job: nat) {
    exists e :: e in log && IsSql(e) && e.job == job
  }

  predicate StartedIn(log: seq<Event>, session: nat) {
    exists e :: e in log && e.Started? && e.session == session
  }

  predicate MarkedIn(log: seq<Event>, session: nat) {
    exists e :: e in log && e.Refused? && e.marked && e.session == session
  }

  // ---- one more event ----

  lemma GrowSession(log: seq<Event>, e: Event)
    ensures LastSession(log + [e])
         == if e.Disconnected? then None else if IsSql(e) then Some(e.session) else LastSession(log)
  {
    assert (log + [e])[..|log|] == log;
  }

  lemma GrowPending(log: seq<Event>, e: Event)
    ensures Pending(log + [e])
         == if e.Disconnected? || e.Answered? then None else if IsSql(e) then Some(e) else Pending(log)
  {
    assert (log + [e])[..|log|] == log;
  }

  lemma GrowConfirmed(log: seq<Event>, e: Event)
    ensures Confirmed(log + [e]) ==
            if e.Disconnected? || IsSql(e) then false
            else if e.Answered? then IsIdleAnswer(e)
            else Confirmed(log)
  {
    assert (log + [e])[..|log|] == log;
  }

  lemma GrowResumable(log: seq<Event>, e: Event)
    ensures Resumable(log + [e]) ==
            if e.Disconnected? || IsSql(e) || IsReset(e) then false
            else if e.Answered? then IsIdleAnswer(e)
            else Resumable(log)
  {
    assert (log + [e])[..|log|] == log;
  }

  lemma GrowReady(log: seq<Event>, e: Event)
    ensures LastReady(log + [e])
         == if e.Disconnected? then IDLE
            else if e.Answered? && !e.failed && e.ready then e.tx
            else LastReady(log)
  {
    assert (log + [e])[..|log|] == log;
  }

  lemma GrowKey(log: seq<Event>, e: Event)
    ensures KeyOf(log + [e])
         == if e.Disconnected? || e.Lost? || (e.Answered? && e.failed) then (0, [])
            else if e.Answered? then (e.pid, e.secret)
            else KeyOf(log)
  {
    assert (log + [e])[..|log|] == log;
  }

  lemma GrowCopy(log: seq<Event>, e: Event, session: nat)
    ensures CopyOpen(log + [e], session) ==
            if e.Answered? && e.session == session then
              e.copyIn || (!e.req.wait && !IsTxState(e.tx) && CopyOpen(log, session))
            else CopyOpen(log, session)
  {
    assert (log + [e])[..|log|] == log;
  }

  lemma GrowDoomed(log: seq<Event>, e: Event)
    ensures Doomed(log + [e]) ==
            if e.Disconnected? || IsSql(e) then false
            else if e.Answered? then e.tx == 'E' as int
            else Doomed(log)
  {
    assert (log + [e])[..|log|] == log;
  }

  lemma {:induction false} NeverOpened(log: seq<Event>, session: nat)
    requires forall e :: e in log && !e.Disconnected? ==> e.session != session
    ensures !CopyOpen(log, session)
    decreases |log|
  {
    if log != [] {
      NeverOpened(log[..|log| - 1], session);
    }
  }

  /** An idle answer that nothing after it, up to `j`, takes back. */
  predicate Stands(log: seq<Event>, k: nat, j: nat)
    requires k < j <= |log|
  {
    IsIdleAnswer(log[k])
    && forall i :: k < i < j ==> !log[i].Disconnected? && !IsSql(log[i]) && !IsReset(log[i]) && !log[i].Answered?
  }

  lemma {:induction false} ResumableBy(log: seq<Event>, j: nat) returns (k: nat)
    requires j <= |log| && Resumable(log[..j])
    ensures k < j && Stands(log, k, j)
    decreases j
  {
    if j == 0 {
      assert false;
    } else {
      var e := log[j - 1];
      assert log[..j] == log[..j - 1] + [e];
      GrowResumable(log[..j - 1], e);
      if e.Answered? {
        k := j - 1;
      } else {
        k := ResumableBy(log, j - 1);
      }
    }
  }

  lemma {:induction false} ResumableIsConfirmed(log: seq<Event>)
    requires Resumable(log)
    ensures Confirmed(log)
    decreases |log|
  {
    var e := log[|log| - 1];
    if !e.Answered? {
      ResumableIsConfirmed(log[..|log| - 1]);
    }
  }
}
