/**
 What the network thread and the driver do, told from what happened before: whose session a
 client is given, and how long a session waits for it.
 */
module DriverHistory {
  import opened Wrappers
  import opened Sessions
  import opened Registry
  import opened NetworkLoop
  import opened Driver
  import opened DriverProofs
  import DriverOps
  import opened DriverRuns
  import opened DriverTheorems
  import Recovery

  // ----- whose token it is

  /** Step `m` opens connection `conn`, for a client that presents `token`. */
  ghost predicate Opens(ss: seq<System>, steps: seq<Step>, m: nat, conn: nat, token: Option<string>)
    requires m < |steps| < |ss|
  {
    steps[m].Wake? && steps[m].w.Routed? && steps[m].w.token == token && ss[m].accepted == conn
  }

  ghost predicate OpenedBefore(ss: seq<System>, steps: seq<Step>, n: nat, conn: nat, token: Option<string>)
    requires n <= |steps| < |ss|
  {
    exists m: nat :: m < n && Opens(ss, steps, m, conn, token)
  }

  ghost predicate EventOpened(ss: seq<System>, steps: seq<Step>, n: nat, i: nat)
    requires n <= |steps| < |ss| && i < |ss[n].events|
  {
    var e := ss[n].events[i];
    e.ClientConnected? ==> OpenedBefore(ss, steps, n, e.conn, e.token)
  }

  lemma OpenedStays(ss: seq<System>, steps: seq<Step>, n: nat, conn: nat, token: Option<string>)
    requires n < |steps| < |ss| && OpenedBefore(ss, steps, n, conn, token)
    ensures OpenedBefore(ss, steps, n + 1, conn, token)
  {
    var m: nat :| m < n && Opens(ss, steps, m, conn, token);
    assert Opens(ss, steps, m, conn, token);
  }

  /** In every run, every connect in the queue, and the one about to be queued, carries exactly the
      token that the client presented when its connection was opened. */
  lemma {:induction false} QueuedTokens(t0: Table, ss: seq<System>, steps: seq<Step>, n: nat)
    requires SystemRun(t0, ss, steps) && n < |ss|
    ensures forall i: nat :: i < |ss[n].events| ==> EventOpened(ss, steps, n, i)
    ensures ss[n].net.Starting? ==> OpenedBefore(ss, steps, n, ss[n].net.conn, ss[n].net.token)
  {
    if n > 0 {
      QueuedTokens(t0, ss, steps, n - 1);
      var s, s', step := ss[n - 1], ss[n], steps[n - 1];
      assert Next(s, step, s');
      if s.net.Starting? { OpenedStays(ss, steps, n - 1, s.net.conn, s.net.token); }
      if step.Wake? && step.w.Routed? { assert Opens(ss, steps, n - 1, s.accepted, step.w.token); }
      forall i: nat | i < |s'.events| ensures EventOpened(ss, steps, n, i) {
        QueuedToken(ss, steps, n - 1, i);
      }
    }
  }

  lemma QueuedToken(ss: seq<System>, steps: seq<Step>, n: nat, i: nat)
    requires n < |steps| < |ss| && Next(ss[n], steps[n], ss[n + 1]) && i < |ss[n + 1].events|
    requires forall j: nat :: j < |ss[n].events| ==> EventOpened(ss, steps, n, j)
    requires ss[n].net.Starting? ==> OpenedBefore(ss, steps, n, ss[n].net.conn, ss[n].net.token)
    ensures EventOpened(ss, steps, n + 1, i)
  {
    var e := ss[n + 1].events[i];
    if e.ClientConnected? {
      var j := if steps[n].Drain? then i + 1 else i;
      assert j < |ss[n].events| ==> EventOpened(ss, steps, n, j);
      OpenedStays(ss, steps, n, e.conn, e.token);
    }
  }

  /** A connection is opened once. */
  lemma OpenedOnce(t0: Table, ss: seq<System>, steps: seq<Step>, m: nat, n: nat, conn: nat, a: Option<string>, b: Option<string>)
    requires SystemRun(t0, ss, steps) && m < |steps| && n < |steps|
    requires Opens(ss, steps, m, conn, a) && Opens(ss, steps, n, conn, b)
    ensures m == n && a == b
  {
    if m < n { AcceptedGrows(t0, ss, steps, m, n); }
    if n < m { AcceptedGrows(t0, ss, steps, n, m); }
  }

  lemma {:induction false} AcceptedGrows(t0: Table, ss: seq<System>, steps: seq<Step>, m: nat, n: nat)
    requires SystemRun(t0, ss, steps) && m < n < |ss|
    ensures ss[m].accepted <= ss[n].accepted
    ensures steps[m].Wake? && steps[m].w.Routed? ==> ss[m].accepted < ss[n].accepted
  {
    assert Next(ss[n - 1], steps[n - 1], ss[n]);
    if m < n - 1 { AcceptedGrows(t0, ss, steps, m, n - 1); }
  }

  /** Step `d` answered the connect of `conn`, which carried `token`, with `decision`: in the
      presented token's name, or in that of one generated for it. */
  ghost predicate Answers(ss: seq<System>, steps: seq<Step>, d: nat, conn: nat, token: Option<string>, decision: Decision)
    requires d < |steps| < |ss|
  {
    && steps[d].Drain? && ss[d].events != [] && ss[d].events[0] == ClientConnected(conn, token)
    && (decision.Bind? ==> decision.token == if token.Some? then token.value else steps[d].answer.generated)
  }

  ghost predicate AnsweredBefore(ss: seq<System>, steps: seq<Step>, n: nat, conn: nat, token: Option<string>, decision: Decision)
    requires n <= |steps| < |ss|
  {
    exists d: nat :: d < n && Answers(ss, steps, d, conn, token, decision)
  }

  ghost predicate ReplyAnswers(ss: seq<System>, steps: seq<Step>, n: nat)
    requires n <= |steps| < |ss|
  {
    Announced(ss[n].net) && ss[n].reply.Some? ==>
      exists token :: AnsweredBefore(ss, steps, n, ss[n].net.conn, token, ss[n].reply.value)
  }

  lemma ReplyAnswered(ss: seq<System>, steps: seq<Step>, n: nat, d: nat, token: Option<string>)
    requires d < n <= |steps| < |ss| && ss[n].reply.Some? && Announced(ss[n].net)
    requires Answers(ss, steps, d, ss[n].net.conn, token, ss[n].reply.value)
    ensures ReplyAnswers(ss, steps, n)
  {
    assert AnsweredBefore(ss, steps, n, ss[n].net.conn, token, ss[n].reply.value);
  }

  lemma {:induction false} RepliesAnswer(t0: Table, ss: seq<System>, steps: seq<Step>, n: nat)
    requires SystemRun(t0, ss, steps) && n < |ss|
    ensures ReplyAnswers(ss, steps, n)
  {
    if n > 0 {
      RepliesAnswer(t0, ss, steps, n - 1);
      RunKeepsInv(t0, ss, steps, n - 1);
      var s, s', step := ss[n - 1], ss[n], steps[n - 1];
      assert Next(s, step, s');
      if Announced(s'.net) && s'.reply.Some? {
        if step.Drain? && IsConnect(s.events[0], s.net.conn) {
          DrainKeepsQueue(s, step.answer);
          AnswerHasToken(s.driver, s.events[0], step.answer);
          ReplyAnswered(ss, steps, n, n - 1, s.events[0].token);
        } else {
          var token :| AnsweredBefore(ss, steps, n - 1, s.net.conn, token, s.reply.value);
          var d: nat :| d < n - 1 && Answers(ss, steps, d, s.net.conn, token, s.reply.value);
          ReplyAnswered(ss, steps, n, d, token);
        }
      }
    }
  }

  /** A client is bound in the name of the token it presented, or of a generated one if it presented
      none. */
  lemma AnswerHasToken(d: DriverState, e: NetToCompositor, answer: Answer)
    requires DriverInv(d) && d.active.None? && e.ClientConnected?
    ensures var decision := Connected(d, TokenOf(e, answer), answer.cluster, answer.now).1;
            decision.Bind? ==> decision.token == if e.token.Some? then e.token.value else answer.generated
  {
    ConnectedKeeps(d, TokenOf(e, answer), answer.cluster, answer.now);
  }

  /** While a connection is served: it was opened once, by a client that presented some token or none,
      and the one active session is that token's, or that of a token generated for it. */
  lemma ServedForItsToken(t0: Table, ss: seq<System>, steps: seq<Step>, n: nat)
    returns (m: nat, d: nat, token: Option<string>)
    requires SystemRun(t0, ss, steps) && n < |ss| && ss[n].net.Serving?
    ensures m < d < n && Opens(ss, steps, m, ss[n].net.conn, token) && steps[d].Drain?
    ensures var r := ss[n].driver.reg; var own := if token.Some? then token.value else steps[d].answer.generated;
            forall id :: id in r.sessions ==> (r.sessions[id].state.Active? <==> r.sessions[id].token == own)
  {
    RepliesAnswer(t0, ss, steps, n);
    ServedSession(t0, ss, steps, n);
    token :| AnsweredBefore(ss, steps, n, ss[n].net.conn, token, ss[n].reply.value);
    d :| d < n && Answers(ss, steps, d, ss[n].net.conn, token, ss[n].reply.value);
    QueuedTokens(t0, ss, steps, d);
    assert EventOpened(ss, steps, d, 0);
    m :| m < d && Opens(ss, steps, m, ss[n].net.conn, token);
    RunKeepsInv(t0, ss, steps, n);
    var r := ss[n].driver.reg;
    forall id | id in r.sessions ensures r.sessions[id].state.Active? <==> r.sessions[id].token == ss[n].reply.value.token {
      assert SessionAtRest(ss[n].driver, id);
      if r.sessions[id].token == ss[n].reply.value.token { LiveTokensUnique(r, id, ss[n].reply.value.id); }
    }
  }

  // ----- how long a session waits

  /** Step `i` handles the departure of the client that session `k` is bound to. */
  ghost predicate Parts(ss: seq<System>, steps: seq<Step>, i: nat, k: nat)
    requires i < |steps| < |ss|
  {
    && steps[i].Drain? && ss[i].events != [] && ss[i].events[0].ClientDisconnected?
    && ss[i].driver.active == Some(k)
  }

  /** Step `m`, if it is a cleanup, comes before session `k` has been suspended for its whole timeout. */
  predicate InTime(step: Step, since: nat, timeout: nat) {
    step.Tidy? ==> step.now - since < timeout
  }

  ghost predicate Waits(s: System, k: nat, since: nat, timeout: nat) {
    && k in s.driver.reg.sessions
    && var session := s.driver.reg.sessions[k];
       session.state.Suspended? && session.suspendedAt == Some(since) && session.suspendTimeout == timeout
  }

  lemma PartsSuspends(t0: Table, s: System, answer: Answer, k: nat)
    requires Inv(t0, s) && s.events != [] && s.events[0].ClientDisconnected? && s.driver.active == Some(k)
    ensures k in s.driver.reg.sessions
    ensures Waits(DrainedOne(s, answer), k, answer.now, s.driver.reg.sessions[k].suspendTimeout)
  {
    assert SessionAtRest(s.driver, k);
  }

  /** A suspended session that is not resumed is left alone by every event. */
  lemma HandledLeavesAlone(d: DriverState, e: NetToCompositor, answer: Answer, k: nat)
    requires DriverInv(d) && k in d.reg.sessions && d.reg.sessions[k].state.Suspended?
    requires Handled(d, e, answer).active != Some(k)
    ensures k in Handled(d, e, answer).reg.sessions && Handled(d, e, answer).reg.sessions[k] == d.reg.sessions[k]
  {
    assert SessionAtRest(d, k) && SessionOk(d.reg, k);
    if e.ClientConnected? {
      LookedKeeps(d.reg, TokenOf(e, answer), answer.cluster, answer.now);
    }
  }

  lemma StepOfWait(t0: Table, s: System, step: Step, s': System, k: nat, since: nat, timeout: nat)
    requires Inv(t0, s) && Next(s, step, s') && Waits(s, k, since, timeout) && s'.driver.active != Some(k)
    ensures if InTime(step, since, timeout) then Waits(s', k, since, timeout) else k !in s'.driver.reg.sessions
  {
    match step {
      case Wake(_) =>
      case Drain(answer) => HandledLeavesAlone(s.driver, s.events[0], answer, k);
      case Tidy(expired, now) => CleanedExactly(s.driver, expired, now);
    }
  }

  /** Ids are issued upwards. */
  lemma HandledIds(d: DriverState, e: NetToCompositor, answer: Answer, k: nat)
    requires DriverInv(d)
    ensures d.reg.nextId <= Handled(d, e, answer).reg.nextId
    ensures k < d.reg.nextId && k !in d.reg.sessions ==> k !in Handled(d, e, answer).reg.sessions
  {
    if e.ClientConnected? {
      LookedKeeps(d.reg, TokenOf(e, answer), answer.cluster, answer.now);
    }
  }

  /** An id is not issued again in the same run. */
  lemma StepKeepsGone(t0: Table, s: System, step: Step, s': System, k: nat)
    requires Inv(t0, s) && Next(s, step, s')
    ensures s.driver.reg.nextId <= s'.driver.reg.nextId
    ensures k < s.driver.reg.nextId && k !in s.driver.reg.sessions ==> k !in s'.driver.reg.sessions
  {
    match step {
      case Wake(_) =>
      case Drain(answer) => HandledIds(s.driver, s.events[0], answer, k);
      case Tidy(expired, now) =>
        CleanedExactly(s.driver, expired, now);
        DestroyedNextId(s.driver.reg, expired, now);
    }
  }

  lemma {:induction false} DestroyedNextId(r: RegState, ids: seq<nat>, now: nat)
    ensures AllDestroyed(r, ids, now).nextId == r.nextId
  {
    if ids != [] { DestroyedNextId(r, ids[..|ids| - 1], now); }
  }

  ghost predicate AllInTime(steps: seq<Step>, i: nat, j: nat, since: nat, timeout: nat)
    requires j <= |steps|
  {
    forall m :: i <= m < j ==> InTime(steps[m], since, timeout)
  }

  lemma AllInTimeSnoc(steps: seq<Step>, i: nat, j: nat, since: nat, timeout: nat)
    requires i < j <= |steps|
    ensures AllInTime(steps, i, j, since, timeout)
       <==> AllInTime(steps, i, j - 1, since, timeout) && InTime(steps[j - 1], since, timeout)
  {
  }

  ghost predicate WaitsOrGone(s: System, k: nat, since: nat, timeout: nat, inTime: bool) {
    && k < s.driver.reg.nextId
    && if inTime then Waits(s, k, since, timeout) else k !in s.driver.reg.sessions
  }

  lemma StepWaitsOn(t0: Table, s: System, step: Step, s': System, k: nat, since: nat, timeout: nat, inTime: bool)
    requires Inv(t0, s) && Next(s, step, s') && WaitsOrGone(s, k, since, timeout, inTime) && s'.driver.active != Some(k)
    ensures WaitsOrGone(s', k, since, timeout, inTime && InTime(step, since, timeout))
  {
    StepKeepsGone(t0, s, step, s', k);
    if inTime { StepOfWait(t0, s, step, s', k, since, timeout); }
  }

  lemma WaitsOnce(t0: Table, ss: seq<System>, steps: seq<Step>, n: nat, k: nat, since: nat, timeout: nat, inTime: bool)
    requires SystemRun(t0, ss, steps) && n < |steps| && WaitsOrGone(ss[n], k, since, timeout, inTime)
    requires ss[n + 1].driver.active != Some(k)
    ensures WaitsOrGone(ss[n + 1], k, since, timeout, inTime && InTime(steps[n], since, timeout))
  {
    RunKeepsInv(t0, ss, steps, n);
    StepWaitsOn(t0, ss[n], steps[n], ss[n + 1], k, since, timeout, inTime);
  }

  lemma IdIssued(t0: Table, ss: seq<System>, steps: seq<Step>, n: nat, k: nat)
    requires SystemRun(t0, ss, steps) && n < |ss| && k in ss[n].driver.reg.sessions
    ensures k < ss[n].driver.reg.nextId
  {
    RunKeepsInv(t0, ss, steps, n);
    assert SessionOk(ss[n].driver.reg, k);
  }

  /** A session waiting at some moment, and not resumed since: it is there if and only if every
      cleanup since then came in time; it is still waiting then. */
  lemma {:induction false} WaitsOn(t0: Table, ss: seq<System>, steps: seq<Step>, i: nat, j: nat, k: nat, since: nat, timeout: nat)
    requires SystemRun(t0, ss, steps) && i <= j < |ss| && Waits(ss[i], k, since, timeout)
    requires forall n :: i < n <= j ==> ss[n].driver.active != Some(k)
    ensures WaitsOrGone(ss[j], k, since, timeout, AllInTime(steps, i, j, since, timeout))
  {
    if i == j {
      IdIssued(t0, ss, steps, j, k);
    } else {
      WaitsOn(t0, ss, steps, i, j - 1, k, since, timeout);
      WaitsOnce(t0, ss, steps, j - 1, k, since, timeout, AllInTime(steps, i, j - 1, since, timeout));
      AllInTimeSnoc(steps, i, j, since, timeout);
    }
  }

  /** A session whose client left at time `t`, and that was not resumed since, is still there if and
      only if no cleanup since then came when it had been suspended for its timeout or longer. */
  lemma SessionWaitsIff(t0: Table, ss: seq<System>, steps: seq<Step>, i: nat, j: nat, k: nat)
    requires SystemRun(t0, ss, steps) && i < j < |ss| && Parts(ss, steps, i, k)
    requires forall n :: i < n <= j ==> ss[n].driver.active != Some(k)
    ensures k in ss[i].driver.reg.sessions
    ensures k in ss[j].driver.reg.sessions <==>
              forall m :: i < m < j && steps[m].Tidy? ==>
                steps[m].now - steps[i].answer.now < ss[i].driver.reg.sessions[k].suspendTimeout
  {
    RunKeepsInv(t0, ss, steps, i);
    assert Next(ss[i], steps[i], ss[i + 1]);
    PartsSuspends(t0, ss[i], steps[i].answer, k);
    var since, timeout := steps[i].answer.now, ss[i].driver.reg.sessions[k].suspendTimeout;
    WaitsOn(t0, ss, steps, i + 1, j, k, since, timeout);
    assert AllInTime(steps, i + 1, j, since, timeout) <==>
      forall m :: i < m < j && steps[m].Tidy? ==> steps[m].now - since < timeout;
  }

  // ----- coming back

  /** Step `j` handles a connect that presents `token`. */
  ghost predicate Presents(ss: seq<System>, steps: seq<Step>, j: nat, token: string)
    requires j < |steps| < |ss|
  {
    steps[j].Drain? && ss[j].events != [] && ss[j].events[0].ClientConnected? && ss[j].events[0].token == Some(token)
  }

  /** Whoever presents the token of a session that is here is bound to it; nobody is ever bound to
      one that is gone. */
  lemma PresentedIff(t0: Table, ss: seq<System>, steps: seq<Step>, j: nat, k: nat, token: string)
    requires SystemRun(t0, ss, steps) && j < |steps| && Presents(ss, steps, j, token) && k < ss[j].driver.reg.nextId
    requires k in ss[j].driver.reg.sessions ==> ss[j].driver.reg.sessions[k].token == token
    ensures AnswerTo(ss[j], steps[j].answer) == Bind(k, true, token) <==> k in ss[j].driver.reg.sessions
  {
    RunKeepsInv(t0, ss, steps, j);
    DrainKeepsQueue(ss[j], steps[j].answer);
    var d := ss[j].driver;
    TokenGetsItsSession(d, token, steps[j].answer.cluster, steps[j].answer.now);
    if k in d.reg.sessions {
      assert SessionAtRest(d, k) && SessionOk(d.reg, k);
    } else if token in d.reg.tokenIndex {
      IndexedIsLive(d.reg, token);
    }
  }

  /** Hot-desking, exactly: a client leaves its session at time `t`, nobody resumes it, someone presents
      its token. They are bound to that session if and only if no cleanup in between came when it had
      been suspended for its timeout or longer. */
  lemma HotDeskIff(t0: Table, ss: seq<System>, steps: seq<Step>, i: nat, j: nat, k: nat, token: string)
    requires SystemRun(t0, ss, steps) && i < j < |steps| && Parts(ss, steps, i, k) && Presents(ss, steps, j, token)
    requires forall n :: i < n <= j ==> ss[n].driver.active != Some(k)
    requires k in ss[i].driver.reg.sessions && ss[i].driver.reg.sessions[k].token == token
    ensures AnswerTo(ss[j], steps[j].answer) == Bind(k, true, token) <==>
              forall m :: i < m < j && steps[m].Tidy? ==>
                steps[m].now - steps[i].answer.now < ss[i].driver.reg.sessions[k].suspendTimeout
  {
    SessionWaitsIff(t0, ss, steps, i, j, k);
    StaysItself(t0, ss, steps, i, j, k);
    PresentedIff(t0, ss, steps, j, k, token);
  }

  lemma StaysOnce(t0: Table, ss: seq<System>, steps: seq<Step>, n: nat, k: nat)
    requires SystemRun(t0, ss, steps) && n < |steps| && k < ss[n].driver.reg.nextId
    ensures k < ss[n + 1].driver.reg.nextId
    ensures k in ss[n + 1].driver.reg.sessions ==>
              k in ss[n].driver.reg.sessions && SameSession(ss[n + 1].driver.reg.sessions[k], ss[n].driver.reg.sessions[k])
  {
    RunKeepsInv(t0, ss, steps, n);
    assert Next(ss[n], steps[n], ss[n + 1]);
    StepKeepsGone(t0, ss[n], steps[n], ss[n + 1], k);
    if k in ss[n + 1].driver.reg.sessions { StepKeepsItself(t0, ss[n], steps[n], ss[n + 1], k); }
  }

  /** A session that is there at two moments is the same one, and its id was issued. */
  lemma {:induction false} StaysItself(t0: Table, ss: seq<System>, steps: seq<Step>, i: nat, j: nat, k: nat)
    requires SystemRun(t0, ss, steps) && i <= j < |ss| && k in ss[i].driver.reg.sessions
    ensures k < ss[j].driver.reg.nextId
    ensures k in ss[j].driver.reg.sessions ==> SameSession(ss[j].driver.reg.sessions[k], ss[i].driver.reg.sessions[k])
  {
    if i == j {
      IdIssued(t0, ss, steps, j, k);
    } else {
      StaysItself(t0, ss, steps, i, j - 1, k);
      StaysOnce(t0, ss, steps, j - 1, k);
    }
  }

  lemma StepKeepsItself(t0: Table, s: System, step: Step, s': System, k: nat)
    requires Inv(t0, s) && Next(s, step, s') && k in s.driver.reg.sessions && k in s'.driver.reg.sessions
    ensures SameSession(s'.driver.reg.sessions[k], s.driver.reg.sessions[k])
  {
    if step.Tidy? {
      CleanedExactly(s.driver, step.expired, step.now);
    } else {
      StepKeepsSession(t0, s, step, s', k);
    }
  }

  /** Since step `d`, which parted session `k` from its client, nobody resumed it. */
  ghost predicate AwaySince(ss: seq<System>, steps: seq<Step>, d: nat, n: nat, k: nat)
    requires d < n <= |steps| < |ss|
  {
    Parts(ss, steps, d, k) && forall m :: d < m <= n ==> ss[m].driver.active != Some(k)
  }

  /** Step `m` is no cleanup, or the session was bound, or it comes in time. */
  ghost predicate SparesSession(ss: seq<System>, steps: seq<Step>, i: nat, m: nat, k: nat, timeout: nat)
    requires i <= m < |steps| < |ss|
  {
    forall d: nat :: i <= d < m && AwaySince(ss, steps, d, m, k) ==> InTime(steps[m], steps[d].answer.now, timeout)
  }

  ghost predicate Kept(ss: seq<System>, steps: seq<Step>, i: nat, n: nat, k: nat, session: Session)
    requires i <= n <= |steps| < |ss|
  {
    && k in ss[n].driver.reg.sessions && SameSession(ss[n].driver.reg.sessions[k], session)
    && (ss[n].driver.active == Some(k) ||
        exists d: nat :: i <= d < n && AwaySince(ss, steps, d, n, k) && Waits(ss[n], k, steps[d].answer.now, session.suspendTimeout))
  }

  lemma StepKeepsKept(t0: Table, ss: seq<System>, steps: seq<Step>, i: nat, n: nat, k: nat, session: Session)
    requires SystemRun(t0, ss, steps) && i <= n < |steps| && Kept(ss, steps, i, n, k, session)
    requires SparesSession(ss, steps, i, n, k, session.suspendTimeout)
    ensures Kept(ss, steps, i, n + 1, k, session)
  {
    RunKeepsInv(t0, ss, steps, n);
    RunKeepsInv(t0, ss, steps, n + 1);
    assert Next(ss[n], steps[n], ss[n + 1]);
    if ss[n].driver.active == Some(k) {
      BoundStays(t0, ss, steps, n, k);
      if ss[n + 1].driver.active != Some(k) { assert AwaySince(ss, steps, n, n + 1, k); }
    } else {
      var d: nat :| i <= d < n && AwaySince(ss, steps, d, n, k) && Waits(ss[n], k, steps[d].answer.now, session.suspendTimeout);
      AwayStays(t0, ss, steps, d, n, k, session.suspendTimeout);
      if ss[n + 1].driver.active != Some(k) { assert AwaySince(ss, steps, d, n + 1, k); }
    }
    StepKeepsItself(t0, ss[n], steps[n], ss[n + 1], k);
  }

  /** A bound session only leaves its client by a departure. */
  lemma BoundStays(t0: Table, ss: seq<System>, steps: seq<Step>, n: nat, k: nat)
    requires SystemRun(t0, ss, steps) && n < |steps| && Inv(t0, ss[n]) && ss[n].driver.active == Some(k)
    ensures k in ss[n].driver.reg.sessions && k in ss[n + 1].driver.reg.sessions
    ensures ss[n + 1].driver.active == Some(k) ||
            (Parts(ss, steps, n, k) && Waits(ss[n + 1], k, steps[n].answer.now, ss[n].driver.reg.sessions[k].suspendTimeout))
  {
    var s, step := ss[n], steps[n];
    assert Next(s, step, ss[n + 1]) && SessionAtRest(s.driver, k);
    match step {
      case Wake(_) =>
      case Drain(answer) =>
        DrainKeepsQueue(s, answer);
        HandledKeepsSession(s.driver, s.events[0], answer, k);
      case Tidy(expired, now) => CleanedExactly(s.driver, expired, now);
    }
  }

  lemma AwayStays(t0: Table, ss: seq<System>, steps: seq<Step>, d: nat, n: nat, k: nat, timeout: nat)
    requires SystemRun(t0, ss, steps) && d < n < |steps| && Inv(t0, ss[n]) && Inv(t0, ss[n + 1])
    requires AwaySince(ss, steps, d, n, k) && Waits(ss[n], k, steps[d].answer.now, timeout)
    requires InTime(steps[n], steps[d].answer.now, timeout)
    ensures k in ss[n + 1].driver.reg.sessions
    ensures ss[n + 1].driver.active != Some(k) ==> Waits(ss[n + 1], k, steps[d].answer.now, timeout)
  {
    assert Next(ss[n], steps[n], ss[n + 1]);
    if ss[n + 1].driver.active != Some(k) {
      StepOfWait(t0, ss[n], steps[n], ss[n + 1], k, steps[d].answer.now, timeout);
    }
  }

  lemma {:induction false} RunKeepsKept(t0: Table, ss: seq<System>, steps: seq<Step>, i: nat, n: nat, k: nat)
    requires SystemRun(t0, ss, steps) && i <= n < |ss| && ss[i].driver.active == Some(k) && k in ss[i].driver.reg.sessions
    requires forall m :: i <= m < n ==> SparesSession(ss, steps, i, m, k, ss[i].driver.reg.sessions[k].suspendTimeout)
    ensures Kept(ss, steps, i, n, k, ss[i].driver.reg.sessions[k])
  {
    if i < n {
      RunKeepsKept(t0, ss, steps, i, n - 1, k);
      StepKeepsKept(t0, ss, steps, i, n - 1, k, ss[i].driver.reg.sessions[k]);
    }
  }

  /** Hot-desking over any comings and goings: a session once bound here is given to whoever presents
      its token, as long as no cleanup came when it had been away for its whole timeout. */
  lemma HotDeskReturns(t0: Table, ss: seq<System>, steps: seq<Step>, i: nat, j: nat, k: nat, token: string)
    requires SystemRun(t0, ss, steps) && i <= j < |steps| && ss[i].driver.active == Some(k) && Presents(ss, steps, j, token)
    requires k in ss[i].driver.reg.sessions && ss[i].driver.reg.sessions[k].token == token
    requires forall m :: i <= m < j ==> SparesSession(ss, steps, i, m, k, ss[i].driver.reg.sessions[k].suspendTimeout)
    ensures AnswerTo(ss[j], steps[j].answer) == Bind(k, true, token)
  {
    RunKeepsKept(t0, ss, steps, i, j, k);
    StaysItself(t0, ss, steps, i, j, k);
    PresentedIff(t0, ss, steps, j, k, token);
  }

  // ----- new and restored sessions

  /** A session that a connect creates has the default timeout of a day, no user, and belongs to this
      server, from that moment on. */
  lemma NewSessionIs(t0: Table, ss: seq<System>, steps: seq<Step>, n: nat, k: nat)
    requires SystemRun(t0, ss, steps) && n < |steps| && k !in ss[n].driver.reg.sessions && k in ss[n + 1].driver.reg.sessions
    ensures steps[n].Drain? && ss[n + 1].driver.active == Some(k) && k == ss[n].driver.reg.nextId
    ensures var session := ss[n + 1].driver.reg.sessions[k];
            && session.suspendTimeout == 86400 && session.user == None && session.createdAt == steps[n].answer.now
            && session.homeServer == ss[n].driver.reg.serverId && session.state.Active?
  {
    RunKeepsInv(t0, ss, steps, n);
    assert Next(ss[n], steps[n], ss[n + 1]);
    match steps[n] {
      case Wake(_) =>
      case Drain(answer) =>
        if ss[n].events[0].ClientConnected? {
          LookedKeeps(ss[n].driver.reg, TokenOf(ss[n].events[0], answer), answer.cluster, answer.now);
        }
      case Tidy(expired, now) => CleanedExactly(ss[n].driver, expired, now);
    }
  }

  lemma RestoredWaits(t0: Table, s: System, k: nat, rows: seq<Recovery.PersistedSession>, serverId: string, restart: nat)
    requires Recovery.Loads(rows, t0) && Recovery.TokensDistinct(t0)
    requires s.driver.reg == Recovery.RestoreRows(Empty(serverId), rows, restart) && k in s.driver.reg.sessions
    ensures k in t0 && Waits(s, k, restart, t0[k].suspendTimeout)
  {
    Recovery.RestoreExact(t0, rows, serverId, restart);
  }

  /** A restored session waits for its whole timeout again, from the restart on: if nobody resumes it,
      it is there if and only if no cleanup came when the restart was that long ago. */
  lemma RestoredWaitsIff(t0: Table, ss: seq<System>, steps: seq<Step>, j: nat, k: nat,
                          rows: seq<Recovery.PersistedSession>, serverId: string, restart: nat)
    requires SystemRun(t0, ss, steps) && j < |ss| && Recovery.Loads(rows, t0) && Recovery.TokensDistinct(t0)
    requires ss[0].driver.reg == Recovery.RestoreRows(Empty(serverId), rows, restart) && k in ss[0].driver.reg.sessions
    requires forall n :: 0 < n <= j ==> ss[n].driver.active != Some(k)
    ensures k in t0
    ensures k in ss[j].driver.reg.sessions <==>
              forall m :: 0 <= m < j && steps[m].Tidy? ==> steps[m].now - restart < t0[k].suspendTimeout
  {
    RestoredWaits(t0, ss[0], k, rows, serverId, restart);
    var timeout := t0[k].suspendTimeout;
    WaitsOn(t0, ss, steps, 0, j, k, restart, timeout);
    assert AllInTime(steps, 0, j, restart, timeout) <==>
      forall m :: 0 <= m < j && steps[m].Tidy? ==> steps[m].now - restart < timeout;
  }

  // ----- what is published

  /** Once a connect was bound or a departure handled, peers are told exactly of the tokens that can be
      resumed here. */
  lemma PublishedExactly(t0: Table, ss: seq<System>, steps: seq<Step>, n: nat, token: string)
    requires SystemRun(t0, ss, steps) && n < |steps| && steps[n].Drain? && ss[n].events != []
    requires ss[n].events[0].ClientDisconnected? ||
             (ss[n].events[0].ClientConnected? && AnswerTo(ss[n], steps[n].answer).Bind?)
    ensures token in ss[n + 1].driver.tokens <==> ss[n + 1].driver.reg.IsResumable(token).Some?
    ensures ss[n + 1].driver.load == ActiveCount(ss[n + 1].driver.reg)
  {
    RunKeepsInv(t0, ss, steps, n + 1);
    assert Next(ss[n], steps[n], ss[n + 1]);
    ResumableTokensExact(ss[n + 1].driver.reg, token);
  }

  // ----- flags, remote entries, rows

  ghost predicate Apart(r: RegState) {
    forall token :: token in r.tokenIndex ==> token !in r.remote
  }

  lemma TransitionedApart(r: RegState, id: nat, next: SessionState, now: nat)
    requires Apart(r)
    ensures Apart(Transitioned(r, id, next, now))
  {
  }

  lemma ConnectedApart(d: DriverState, token: string, cluster: Cluster, now: nat)
    requires Apart(d.reg)
    ensures Apart(Connected(d, token, cluster, now).0.reg)
  {
    var (r, location) := Looked(d.reg, token, cluster, now);
    assert Apart(r) && Apart(Created(r, token, now));
    DriverOps.ConnectedResolves(d, token, cluster, now);
    match r.IsResumable(token) {
      case Some(id) => TransitionedApart(r, id, Active, now);
      case None => TransitionedApart(Created(r, token, now), r.nextId, Active, now);
    }
  }

  lemma HandledApart(d: DriverState, e: NetToCompositor, answer: Answer)
    requires Apart(d.reg)
    ensures Apart(Handled(d, e, answer).reg)
  {
    match e {
      case ClientConnected(_, _) => ConnectedApart(d, TokenOf(e, answer), answer.cluster, answer.now);
      case ClientDisconnected => if d.active.Some? { TransitionedApart(d.reg, d.active.value, Suspended, answer.now); }
      case RequestKeyframe =>
    }
  }

  lemma StepApart(t0: Table, s: System, step: Step, s': System)
    requires Inv(t0, s) && Next(s, step, s') && Apart(s.driver.reg)
    ensures Apart(s'.driver.reg)
  {
    match step {
      case Wake(_) =>
      case Drain(answer) => HandledApart(s.driver, s.events[0], answer);
      case Tidy(expired, now) => DestroyedRemote(s.driver.reg, expired, now);
    }
  }

  lemma StepConnected(t0: Table, s: System, step: Step, s': System)
    requires Inv(t0, s) && Next(s, step, s') && (s.driver.connected <==> s.driver.active.Some?)
    ensures s'.driver.connected <==> s'.driver.active.Some?
  {
  }

  /** In every run that starts without remote entries: no token has a session here and is also taken to
      have one elsewhere; and the driver says that a client is connected exactly while it has a session
      bound. */
  lemma {:induction false} LocalOrRemote(t0: Table, ss: seq<System>, steps: seq<Step>, n: nat)
    requires SystemRun(t0, ss, steps) && n < |ss| && ss[0].driver.reg.remote == map[]
    ensures Apart(ss[n].driver.reg)
    ensures ss[n].driver.connected <==> ss[n].driver.active.Some?
  {
    if n > 0 {
      LocalOrRemote(t0, ss, steps, n - 1);
      RunKeepsInv(t0, ss, steps, n - 1);
      assert Next(ss[n - 1], steps[n - 1], ss[n]);
      StepApart(t0, ss[n - 1], steps[n - 1], ss[n]);
      StepConnected(t0, ss[n - 1], steps[n - 1], ss[n]);
    }
  }

  /** Once a departure at time `t` has been written, the table's row says that the session has been
      suspended since `t`, and otherwise what it said of the session's creation and settings. */
  lemma PartedRow(t0: Table, ss: seq<System>, steps: seq<Step>, i: nat, k: nat)
    requires SystemRun(t0, ss, steps) && i < |steps| && Parts(ss, steps, i, k)
    ensures k in ss[i].driver.reg.sessions
    ensures var t := ApplyOps(t0, ss[i + 1].driver.reg.log); var session := ss[i].driver.reg.sessions[k];
            k in t && t[k] == Record(session.token, "suspended", session.user, session.homeServer, session.createdAt,
                                     Some(steps[i].answer.now), session.suspendTimeout)
  {
    RunKeepsInv(t0, ss, steps, i);
    RunKeepsInv(t0, ss, steps, i + 1);
    assert Next(ss[i], steps[i], ss[i + 1]);
    PartsSuspends(t0, ss[i], steps[i].answer, k);
  }
}
