/** Re-login of a session that several threads share: a step system of threads that
    send requests, get answers, and handle 401 answers under the session's lock. */
module SessionRelogin {
  import opened Options

  /** Session tokens, numbered in the order in which logons returned them. */
  type Token = nat

  datatype Event =
    | Sent(req: nat, token: Token)
    | Unauthorized(req: nat, token: Token)
    | LogonOk(req: nat, old_: Token, new_: Token)
    | LogonUnauthorized(req: nat, old_: Token)
    | LogonFailed(req: nat, old_: Token)
    | LoggedOff

  /** Where a thread is.  In the states from Checking on it holds the lock. */
  datatype Pc =
    | Idle
    | Ready(req: nat, relogin: bool)                  // about to read the token
    | Waiting(req: nat, relogin: bool, token: Token)  // for the answer
    | Refused(req: nat, relogin: bool, token: Token)  // answered 401
    | Checking(req: nat, relogin: bool, token: Token)
    | LoggingOn(req: nat, token: Token)
    | Retrying(req: nat, token: Token)
    | Retried(req: nat)
    | LoggingOff
  {
    predicate Locks() { Checking? || LoggingOn? || Retrying? || Retried? || LoggingOff? }
  }

  datatype Session = Session(threads: seq<Pc>, holder: Option<nat>, token: Token, loggedIn: bool, reloginUnsafe: bool,
                             nextReq: nat, log: seq<Event>)
  {
    function At(i: nat, pc: Pc): Session
      requires i < |threads|
    {
      this.(threads := threads[i := pc])
    }

    function Note(e: Event): Session { this.(log := log + [e]) }
  }

  datatype Answer = Accepted | Denied401 | OtherError

  ghost predicate Init(s: Session) {
    (forall i | 0 <= i < |s.threads| :: s.threads[i] == Idle) && s.holder == None && s.loggedIn && !s.reloginUnsafe
    && s.nextReq == 0 && s.log == []
  }

  /** A thread starts a request; `relogin` is the caller's choice. */
  ghost predicate Start(s: Session, t: Session, i: nat, relogin: bool) {
    && i < |s.threads| && s.threads[i].Idle?
    && t == s.At(i, Ready(s.nextReq, relogin)).(nextReq := s.nextReq + 1)
  }

  /** It reads the token under the lock and sends. */
  ghost predicate Send(s: Session, t: Session, i: nat) {
    && i < |s.threads| && s.threads[i].Ready? && s.holder == None
    && var pc := s.threads[i];
       t == s.At(i, Waiting(pc.req, pc.relogin, s.token)).Note(Sent(pc.req, s.token))
  }

  ghost predicate Receive(s: Session, t: Session, i: nat, answer: Answer) {
    && i < |s.threads| && s.threads[i].Waiting?
    && var pc := s.threads[i];
       t == if answer == Denied401 then s.At(i, Refused(pc.req, pc.relogin, pc.token)).Note(Unauthorized(pc.req, pc.token))
            else s.At(i, Idle)
  }

  /** A 401: the thread takes the lock and keeps it until the request is done. */
  ghost predicate Enter(s: Session, t: Session, i: nat) {
    && i < |s.threads| && s.threads[i].Refused? && s.holder == None
    && var pc := s.threads[i];
       t == s.At(i, Checking(pc.req, pc.relogin, pc.token)).(holder := Some(i))
  }

  ghost predicate Check(s: Session, t: Session, i: nat) {
    && i < |s.threads| && s.threads[i].Checking?
    && var pc := s.threads[i];
       t == if !pc.relogin || s.reloginUnsafe then s.At(i, Idle).(holder := None)
            else if s.token != pc.token then s.At(i, Retrying(pc.req, pc.token))
            else s.At(i, LoggingOn(pc.req, pc.token)).(loggedIn := false)
  }

  /** `_logon` is answered.  A successful one returns a new token. */
  ghost predicate Logon(s: Session, t: Session, i: nat, answer: Answer) {
    && i < |s.threads| && s.threads[i].LoggingOn?
    && var pc := s.threads[i];
       match answer
       case Accepted =>
         t == s.At(i, Retrying(pc.req, pc.token)).(token := s.token + 1, loggedIn := true).Note(LogonOk(pc.req, s.token, s.token + 1))
       case Denied401 => t == s.At(i, Idle).(holder := None, reloginUnsafe := true).Note(LogonUnauthorized(pc.req, s.token))
       case OtherError => t == s.At(i, Idle).(holder := None).Note(LogonFailed(pc.req, s.token))
  }

  ghost predicate Retry(s: Session, t: Session, i: nat) {
    && i < |s.threads| && s.threads[i].Retrying?
    && t == s.At(i, Retried(s.threads[i].req)).Note(Sent(s.threads[i].req, s.token))
  }

  /** Whatever the answer to the second try, the request is done. */
  ghost predicate Finish(s: Session, t: Session, i: nat) {
    && i < |s.threads| && s.threads[i].Retried?
    && t == s.At(i, Idle).(holder := None)
  }

  ghost predicate StartLogoff(s: Session, t: Session, i: nat) {
    && i < |s.threads| && s.threads[i].Idle? && s.holder == None && s.loggedIn
    && t == s.At(i, LoggingOff).(holder := Some(i))
  }

  /** `_logoff` ignores the answer. */
  ghost predicate Logoff(s: Session, t: Session, i: nat) {
    && i < |s.threads| && s.threads[i].LoggingOff?
    && t == s.At(i, Idle).(holder := None, loggedIn := false, reloginUnsafe := true).Note(LoggedOff)
  }

  ghost predicate Step(s: Session, t: Session, i: nat, relogin: bool, answer: Answer) {
    || Start(s, t, i, relogin) || Send(s, t, i) || Receive(s, t, i, answer) || Enter(s, t, i) || Check(s, t, i)
    || Logon(s, t, i, answer) || Retry(s, t, i) || Finish(s, t, i) || StartLogoff(s, t, i) || Logoff(s, t, i)
  }

  ghost predicate Next(s: Session, t: Session) { exists i, relogin, answer :: Step(s, t, i, relogin, answer) }

  ghost predicate Run(run: seq<Session>) {
    run != [] && Init(run[0]) && forall k | 0 <= k < |run| - 1 :: Next(run[k], run[k + 1])
  }

  // ---- What every step keeps ----

  predicate IsLogon(e: Event) { e.LogonOk? || e.LogonUnauthorized? || e.LogonFailed? }

  predicate Final(e: Event) { e.LogonUnauthorized? || e.LoggedOff? }

  ghost function Sends(log: seq<Event>, req: nat): nat {
    if log == [] then 0
    else Sends(log[..|log| - 1], req) + if log[|log| - 1].Sent? && log[|log| - 1].req == req then 1 else 0
  }

  /** One thread at most holds the lock, and the session knows which. */
  ghost predicate LockInv(s: Session) {
    forall i | 0 <= i < |s.threads| :: s.threads[i].Locks() <==> s.holder == Some(i)
  }

  predicate Active(pc: Pc) { !pc.Idle? && !pc.LoggingOff? }

  /** How often a request at this place has been sent. */
  function Stage(pc: Pc): nat { if pc.Ready? then 0 else if pc.Retried? then 2 else 1 }

  /** Requests are numbered apart, and sent as often as their place says. */
  ghost predicate ReqInv(s: Session) {
    && (forall i | 0 <= i < |s.threads| && Active(s.threads[i]) ::
          s.threads[i].req < s.nextReq && Sends(s.log, s.threads[i].req) == Stage(s.threads[i]))
    && (forall i, j | 0 <= i < j < |s.threads| && Active(s.threads[i]) && Active(s.threads[j]) :: s.threads[i].req != s.threads[j].req)
    && (forall req | req >= s.nextReq :: Sends(s.log, req) == 0)
    && (forall req :: Sends(s.log, req) <= 2)
  }

  /** The token a thread holds is the one it sent; one that is logging on holds the
      current one, and one that is about to retry an older one. */
  ghost predicate TokenOk(s: Session, pc: Pc) {
    && (pc.Waiting? || pc.Refused? || pc.Checking? || pc.LoggingOn? || pc.Retrying? ==>
          pc.token <= s.token && forall e | e in s.log && e.Sent? && e.req == pc.req :: e.token == pc.token)
    && (pc.Refused? || pc.Checking? || pc.LoggingOn? || pc.Retrying? ==> Unauthorized(pc.req, pc.token) in s.log)
    && (pc.LoggingOn? ==> pc.token == s.token && !s.reloginUnsafe)
    && (pc.Retrying? ==> pc.token < s.token)
  }

  ghost predicate TokenInv(s: Session) { forall i | 0 <= i < |s.threads| :: TokenOk(s, s.threads[i]) }

  /** Two sends of one request carry different tokens, the later one a newer one. */
  ghost predicate SendsApart(log: seq<Event>) {
    forall i, j | 0 <= i < j < |log| && log[i].Sent? && log[j].Sent? && log[i].req == log[j].req :: log[i].token < log[j].token
  }

  /** Each logon is for a token that was answered 401 to the same request, and later
      logons are for the tokens of earlier ones, or newer. */
  ghost predicate LogonInv(s: Session) {
    && (forall i | 0 <= i < |s.log| && IsLogon(s.log[i]) ::
          s.log[i].old_ <= s.token && Unauthorized(s.log[i].req, s.log[i].old_) in s.log[..i])
    && (forall i | 0 <= i < |s.log| && s.log[i].LogonOk? :: s.log[i].old_ < s.log[i].new_ <= s.token)
    && (forall i, j | 0 <= i < j < |s.log| && s.log[i].LogonOk? && IsLogon(s.log[j]) :: s.log[i].new_ <= s.log[j].old_)
  }

  /** After the last word nobody logs on. */
  ghost predicate FinalInv(s: Session) {
    && (s.reloginUnsafe <==> exists i | 0 <= i < |s.log| :: Final(s.log[i]))
    && (forall i, j | 0 <= i < j < |s.log| && Final(s.log[i]) :: !IsLogon(s.log[j]))
  }

  /** A request is answered 401 with one token only: a thread that has had its 401
      holds that token, and one that has not had it, or has not even a number yet,
      is not in the log with a 401. */
  ghost predicate RefusedInv(s: Session) {
    && (forall e, i | e in s.log && e.Unauthorized? && 0 <= i < |s.threads| && Active(s.threads[i]) && s.threads[i].req == e.req ::
          !s.threads[i].Ready? && !s.threads[i].Waiting? && (!s.threads[i].Retried? ==> s.threads[i].token == e.token))
    && (forall e | e in s.log && e.Unauthorized? :: e.req < s.nextReq)
    && (forall e, f | e in s.log && f in s.log && e.Unauthorized? && f.Unauthorized? && e.req == f.req :: e.token == f.token)
  }

  ghost predicate Inv(s: Session) {
    LockInv(s) && ReqInv(s) && TokenInv(s) && RefusedInv(s) && SendsApart(s.log) && LogonInv(s) && FinalInv(s)
  }

  // ---- Steps keep it ----

  /** Thread i goes to q and perhaps notes an event, entering or leaving the lock. */
  ghost predicate Moves(s: Session, t: Session, i: nat, q: Pc, note: Option<Event>) {
    && i < |s.threads| && t.threads == s.threads[i := q]
    && t.log == (if note.Some? then s.log + [note.value] else s.log)
    && t.holder == (if q.Locks() then Some(i) else if s.threads[i].Locks() then None else s.holder)
    && (q.Locks() && !s.threads[i].Locks() ==> s.holder == None)
    && s.token <= t.token
    && (t.token != s.token || t.reloginUnsafe != s.reloginUnsafe ==> s.threads[i].Locks())
  }

  ghost predicate ReqFits(s: Session, t: Session, i: nat, q: Pc, note: Option<Event>)
    requires i < |s.threads|
  {
    var p, sent := s.threads[i], note.Some? && note.value.Sent?;
    && (Active(p) && Active(q) ==> q.req == p.req && Stage(q) == Stage(p) + if sent then 1 else 0)
    && (!Active(p) && Active(q) ==> Stage(q) == 0 && q.req == s.nextReq && t.nextReq == s.nextReq + 1)
    && (Active(p) || !Active(q) ==> t.nextReq == s.nextReq)
    && (sent ==> Active(p) && Active(q) && note.value.req == p.req)
  }

  ghost predicate NoteFits(s: Session, t: Session, note: Option<Event>) {
    && (note.Some? && note.value.Sent? ==> forall e | e in s.log && e.Sent? && e.req == note.value.req :: e.token < note.value.token)
    && (note.Some? && IsLogon(note.value) ==>
          note.value.old_ == s.token && Unauthorized(note.value.req, s.token) in s.log && !s.reloginUnsafe)
    && (note.Some? && note.value.LogonOk? ==> note.value.new_ == t.token == s.token + 1)
    && (t.reloginUnsafe <==> s.reloginUnsafe || (note.Some? && Final(note.value)))
  }

  lemma LockKept(s: Session, t: Session, i: nat, q: Pc, note: Option<Event>)
    requires LockInv(s) && Moves(s, t, i, q, note)
    ensures LockInv(t)
  {
  }

  lemma NoteSends(log: seq<Event>, e: Event, req: nat)
    ensures Sends(log + [e], req) == Sends(log, req) + if e.Sent? && e.req == req then 1 else 0
  {
    assert (log + [e])[..|log|] == log;
  }

  lemma ReqKept(s: Session, t: Session, i: nat, q: Pc, note: Option<Event>)
    requires ReqInv(s) && Moves(s, t, i, q, note) && ReqFits(s, t, i, q, note)
    ensures ReqInv(t)
  {
    forall req ensures Sends(t.log, req) ==
      Sends(s.log, req) + if note.Some? && note.value.Sent? && note.value.req == req then 1 else 0
    {
      if note.Some? { NoteSends(s.log, note.value, req); }
    }
  }

  lemma TokenKept(s: Session, t: Session, i: nat, q: Pc, note: Option<Event>)
    requires LockInv(s) && ReqInv(s) && TokenInv(s) && Moves(s, t, i, q, note) && ReqFits(s, t, i, q, note) && TokenOk(t, q)
    ensures TokenInv(t)
  {
    forall j | 0 <= j < |s.threads| && j != i ensures TokenOk(t, s.threads[j]) {
      assert TokenOk(s, s.threads[j]);
    }
  }

  /** A 401 is noted for the thread that waited, and a place after the 401 keeps the
      token. */
  ghost predicate RefusalFits(s: Session, i: nat, q: Pc, note: Option<Event>)
    requires i < |s.threads|
  {
    var p := s.threads[i];
    && (note.Some? && note.value.Unauthorized? ==> p.Waiting? && q.Refused? && note.value == Unauthorized(p.req, q.token))
    && (p.Waiting? && Active(q) ==> q.Refused? && note.Some? && note.value.Unauthorized?)
    && (Active(p) && (q.Ready? || q.Waiting?) ==> p.Ready?)
    && ((p.Refused? || p.Checking? || p.LoggingOn? || p.Retrying?) && Active(q) && !q.Retried? ==>
          (q.Refused? || q.Checking? || q.LoggingOn? || q.Retrying?) && q.token == p.token)
    && (p.Ready? && Active(q) ==> q.Waiting?)
    && (p.Retried? ==> !Active(q))
  }

  lemma RefusedKept(s: Session, t: Session, i: nat, q: Pc, note: Option<Event>)
    requires ReqInv(s) && RefusedInv(s) && Moves(s, t, i, q, note) && ReqFits(s, t, i, q, note) && RefusalFits(s, i, q, note)
    ensures RefusedInv(t)
  {
    forall e | e in t.log ensures e in s.log || (note.Some? && e == note.value) {}
  }

  lemma SendsKept(s: Session, t: Session, note: Option<Event>)
    requires SendsApart(s.log) && NoteFits(s, t, note) && t.log == if note.Some? then s.log + [note.value] else s.log
    ensures SendsApart(t.log)
  {
    forall j | 0 <= j < |s.log| ensures s.log[j] in s.log {}
  }

  lemma LogonKept(s: Session, t: Session, note: Option<Event>)
    requires LogonInv(s) && NoteFits(s, t, note) && s.token <= t.token && t.log == if note.Some? then s.log + [note.value] else s.log
    ensures LogonInv(t)
  {
    forall i | 0 <= i < |t.log| && IsLogon(t.log[i]) ensures Unauthorized(t.log[i].req, t.log[i].old_) in t.log[..i] {
      if i < |s.log| { assert t.log[..i] == s.log[..i]; } else { assert t.log[..i] == s.log; }
    }
  }

  lemma FinalKept(s: Session, t: Session, note: Option<Event>)
    requires FinalInv(s) && NoteFits(s, t, note) && t.log == if note.Some? then s.log + [note.value] else s.log
    ensures FinalInv(t)
  {
    if s.reloginUnsafe {
      var i :| 0 <= i < |s.log| && Final(s.log[i]);
      assert t.log[i] == s.log[i];
    }
    if note.Some? { assert t.log[|s.log|] == note.value; }
  }

  lemma Kept(s: Session, t: Session, i: nat, q: Pc, note: Option<Event>)
    requires Inv(s) && Moves(s, t, i, q, note) && ReqFits(s, t, i, q, note) && TokenOk(t, q) && NoteFits(s, t, note)
    requires RefusalFits(s, i, q, note)
    ensures Inv(t)
  {
    LockKept(s, t, i, q, note);
    ReqKept(s, t, i, q, note);
    TokenKept(s, t, i, q, note);
    RefusedKept(s, t, i, q, note);
    SendsKept(s, t, note);
    LogonKept(s, t, note);
    FinalKept(s, t, note);
  }

  lemma {:induction false} NeverSent(log: seq<Event>, req: nat)
    requires Sends(log, req) == 0
    ensures forall e | e in log && e.Sent? :: e.req != req
  {
    if log != [] {
      NeverSent(log[..|log| - 1], req);
      assert log == log[..|log| - 1] + [log[|log| - 1]];
    }
  }

  lemma SendKeeps(s: Session, t: Session, i: nat)
    requires Inv(s) && Send(s, t, i)
    ensures Inv(t)
  {
    NeverSent(s.log, s.threads[i].req);
    Kept(s, t, i, t.threads[i], Some(Sent(s.threads[i].req, s.token)));
  }

  lemma ReceiveKeeps(s: Session, t: Session, i: nat, answer: Answer)
    requires Inv(s) && Receive(s, t, i, answer)
    ensures Inv(t)
  {
    var pc := s.threads[i];
    assert TokenOk(s, pc);
    if answer == Denied401 {
      Kept(s, t, i, Refused(pc.req, pc.relogin, pc.token), Some(Unauthorized(pc.req, pc.token)));
    } else {
      Kept(s, t, i, Idle, None);
    }
  }

  lemma LogonAcceptedKeeps(s: Session, t: Session, i: nat)
    requires Inv(s) && Logon(s, t, i, Accepted)
    ensures Inv(t)
  {
    var pc := s.threads[i];
    assert TokenOk(s, pc);
    Kept(s, t, i, Retrying(pc.req, pc.token), Some(LogonOk(pc.req, s.token, s.token + 1)));
  }

  lemma LogonFailedKeeps(s: Session, t: Session, i: nat, answer: Answer)
    requires Inv(s) && Logon(s, t, i, answer) && answer != Accepted
    ensures Inv(t)
  {
    var pc := s.threads[i];
    assert TokenOk(s, pc);
    Kept(s, t, i, Idle, Some(if answer == Denied401 then LogonUnauthorized(pc.req, s.token) else LogonFailed(pc.req, s.token)));
  }

  lemma RetryKeeps(s: Session, t: Session, i: nat)
    requires Inv(s) && Retry(s, t, i)
    ensures Inv(t)
  {
    assert TokenOk(s, s.threads[i]);
    Kept(s, t, i, t.threads[i], Some(Sent(s.threads[i].req, s.token)));
  }

  lemma QuietKeeps(s: Session, t: Session, i: nat, relogin: bool)
    requires Inv(s) && (Start(s, t, i, relogin) || Enter(s, t, i) || Check(s, t, i) || Finish(s, t, i) || StartLogoff(s, t, i))
    ensures Inv(t)
  {
    assert TokenOk(s, s.threads[i]);
    Kept(s, t, i, t.threads[i], None);
  }

  lemma LogoffKeeps(s: Session, t: Session, i: nat)
    requires Inv(s) && Logoff(s, t, i)
    ensures Inv(t)
  {
    Kept(s, t, i, t.threads[i], Some(LoggedOff));
  }

  lemma StepKeeps(s: Session, t: Session, i: nat, relogin: bool, answer: Answer)
    requires Inv(s) && Step(s, t, i, relogin, answer)
    ensures Inv(t)
  {
    if Send(s, t, i) { SendKeeps(s, t, i); }
    else if Receive(s, t, i, answer) { ReceiveKeeps(s, t, i, answer); }
    else if Logon(s, t, i, answer) {
      if answer == Accepted { LogonAcceptedKeeps(s, t, i); } else { LogonFailedKeeps(s, t, i, answer); }
    }
    else if Retry(s, t, i) { RetryKeeps(s, t, i); }
    else if Logoff(s, t, i) { LogoffKeeps(s, t, i); }
    else { QuietKeeps(s, t, i, relogin); }
  }

  lemma {:induction false} RunKeeps(run: seq<Session>, k: nat)
    requires Run(run) && k < |run|
    ensures Inv(run[k])
  {
    if k > 0 {
      RunKeeps(run, k - 1);
      assert Next(run[k - 1], run[k]);
      var i, relogin, answer :| Step(run[k - 1], run[k], i, relogin, answer);
      StepKeeps(run[k - 1], run[k], i, relogin, answer);
    }
  }

  // ---- What holds of every run ----

  /** However many threads were refused with a token, at most one of them logs on
      successfully for it. */
  lemma OneReloginPerToken(run: seq<Session>, k: nat, i: nat, j: nat, refused: Token)
    requires Run(run) && k < |run| && i < j < |run[k].log| && run[k].log[i].LogonOk? && run[k].log[j].LogonOk?
    requires Unauthorized(run[k].log[i].req, refused) in run[k].log
    ensures Unauthorized(run[k].log[j].req, refused) !in run[k].log
  {
    RunKeeps(run, k);
    var log := run[k].log;
    assert Unauthorized(log[i].req, log[i].old_) in log[..i] && Unauthorized(log[j].req, log[j].old_) in log[..j];
    assert Unauthorized(log[i].req, log[i].old_) in log && Unauthorized(log[j].req, log[j].old_) in log;
  }

  /** A request is sent at most twice, and the second time with a newer token. */
  lemma SentAtMostTwice(run: seq<Session>, k: nat, req: nat)
    requires Run(run) && k < |run|
    ensures Sends(run[k].log, req) <= 2 && SendsApart(run[k].log)
  {
    RunKeeps(run, k);
  }

  /** Once a re-login was answered 401, or the session was logged off, nobody logs on
      again; so at most one re-login is answered 401. */
  lemma NoLogonAfterRefusal(run: seq<Session>, k: nat, i: nat, j: nat)
    requires Run(run) && k < |run| && i < j < |run[k].log| && Final(run[k].log[i])
    ensures !IsLogon(run[k].log[j])
  {
    RunKeeps(run, k);
  }

  /** Nobody logs on without a 401 to its own request with the token that is replaced. */
  lemma LogonNeedsRefusal(run: seq<Session>, k: nat, i: nat)
    requires Run(run) && k < |run| && i < |run[k].log| && IsLogon(run[k].log[i])
    ensures Unauthorized(run[k].log[i].req, run[k].log[i].old_) in run[k].log[..i]
  {
    RunKeeps(run, k);
  }
}
