/**
 What holds in every run of the network thread and the driver together, and across restarts.
 */
module DriverTheorems {
  import opened Wrappers
  import opened Sessions
  import opened Registry
  import opened NetworkLoop
  import opened Driver
  import opened DriverProofs
  import opened DriverOps
  import opened DriverRuns
  import Recovery

  ghost predicate SystemRun(t0: Table, ss: seq<System>, steps: seq<Step>) {
    && |ss| == |steps| + 1 && Boot(ss[0], t0)
    && forall i :: 0 <= i < |steps| ==> Next(ss[i], steps[i], ss[i + 1])
  }

  lemma BootInv(t0: Table, s: System)
    requires Boot(s, t0)
    ensures Inv(t0, s)
  {
    forall id | id in s.driver.reg.sessions ensures SessionAtRest(s.driver, id) {
    }
  }

  lemma {:induction false} RunKeepsInv(t0: Table, ss: seq<System>, steps: seq<Step>, n: nat)
    requires SystemRun(t0, ss, steps) && n < |ss|
    ensures Inv(t0, ss[n])
  {
    if n == 0 {
      BootInv(t0, ss[0]);
    } else {
      RunKeepsInv(t0, ss, steps, n - 1);
      assert Next(ss[n - 1], steps[n - 1], ss[n]);
      NextKeepsInv(t0, ss[n - 1], steps[n - 1], ss[n]);
    }
  }

  /** While the network thread serves a client, exactly one session is active: the one the client
      was told of, which belongs to the token it was told of. Peers are told of a load of one. */
  lemma ServedSession(t0: Table, ss: seq<System>, steps: seq<Step>, n: nat)
    requires SystemRun(t0, ss, steps) && n < |ss| && ss[n].net.Serving?
    ensures ss[n].reply.Some? && ss[n].reply.value.Bind?
    ensures var d := ss[n].driver; var bound := ss[n].reply.value;
            && bound.id in d.reg.sessions && d.reg.sessions[bound.id].token == bound.token
            && (forall id :: id in d.reg.sessions ==> (d.reg.sessions[id].state.Active? <==> id == bound.id))
            && ActiveCount(d.reg) == 1 && d.load == 1 && d.connected && bound.token in d.tokens
  {
    RunKeepsInv(t0, ss, steps, n);
    OneActive(ss[n].driver);
    forall id | id in ss[n].driver.reg.sessions ensures SessionAtRest(ss[n].driver, id) {
    }
  }

  /** At no moment of any run is more than one session active, and no session rests half created
      or destroyed. */
  lemma AtMostOneActive(t0: Table, ss: seq<System>, steps: seq<Step>, n: nat)
    requires SystemRun(t0, ss, steps) && n < |ss|
    ensures ActiveCount(ss[n].driver.reg) <= 1
    ensures forall id :: id in ss[n].driver.reg.sessions ==> ss[n].driver.reg.sessions[id].Resumable()
  {
    RunKeepsInv(t0, ss, steps, n);
    OneActive(ss[n].driver);
    forall id | id in ss[n].driver.reg.sessions ensures SessionAtRest(ss[n].driver, id) {
    }
  }

  /** The registry operations of one step of the system. */
  function StepOps(s: System, step: Step): seq<Recovery.RegOp>
    requires step.Drain? ==> s.events != []
  {
    match step
    case Wake(_) => []
    case Drain(answer) => Issued(s.driver, s.events[0], answer)
    case Tidy(expired, _) => CleanupOps(expired)
  }

  function StepTime(step: Step): nat {
    match step
    case Wake(_) => 0
    case Drain(answer) => answer.now
    case Tidy(_, now) => now
  }

  /** In every run, every activation, suspension, creation and destruction the driver issues
      succeeds, and nothing else happens to the registry. */
  lemma NothingFails(t0: Table, ss: seq<System>, steps: seq<Step>, n: nat)
    requires SystemRun(t0, ss, steps) && n < |steps|
    ensures steps[n].Drain? ==> ss[n].events != []
    ensures AllSucceed(ss[n].driver.reg, StepOps(ss[n], steps[n]), StepTime(steps[n]))
    ensures ss[n + 1].driver.reg == AfterAll(ss[n].driver.reg, StepOps(ss[n], steps[n]), StepTime(steps[n]))
  {
    RunKeepsInv(t0, ss, steps, n);
    assert Next(ss[n], steps[n], ss[n + 1]);
    match steps[n] {
      case Wake(_) =>
      case Drain(answer) =>
        DrainKeepsQueue(ss[n], answer);
        HandledIssues(ss[n].driver, ss[n].events[0], answer);
      case Tidy(expired, now) => CleanedIssues(ss[n].driver, expired, now);
    }
  }

  // ----- hot-desking

  /** A token whose session is hosted here always gets that session back, whatever the cluster
      says; a token without one gets a new session, unless a peer says it hosts it. */
  lemma TokenGetsItsSession(d: DriverState, token: string, cluster: Cluster, now: nat)
    requires DriverInv(d) && d.active.None?
    ensures token in d.reg.tokenIndex ==>
              Connected(d, token, cluster, now).1 == Bind(d.reg.tokenIndex[token], true, token)
    ensures token !in d.reg.tokenIndex ==>
              var decision := Connected(d, token, cluster, now).1;
              decision.Redirect? || (decision == Bind(d.reg.nextId, false, token) && d.reg.nextId !in d.reg.sessions)
  {
    LookedKeeps(d.reg, token, cluster, now);
    if token in d.reg.tokenIndex {
      IndexedIsResumable(d, token);
    } else {
      var r := Looked(d.reg, token, cluster, now).0;
      SubsetAtRest(d, d.(reg := r));
      NeverElsewhere(d.(reg := r), cluster);
      forall id | id in d.reg.sessions ensures id != d.reg.nextId { assert SessionOk(d.reg, id); }
    }
  }

  /** When and where a client is sent: exactly if its token has no session here, and the server that
      is known to host it, from an entry less than 30 seconds old or, without one, from the peers'
      answers, has a known address. Otherwise it gets a new session. */
  lemma RedirectedIff(d: DriverState, token: string, cluster: Cluster, now: nat, server: string)
    requires DriverInv(d) && d.active.None?
    ensures var decision := Connected(d, token, cluster, now).1;
            var noted := token in d.reg.remote && now - d.reg.remote[token].notedAt < 30;
            && (decision == Redirect(server)
                <==> && token !in d.reg.tokenIndex && server in cluster.known
                     && if noted then d.reg.remote[token].serverId == server else cluster.home == Some(server))
            && (token !in d.reg.tokenIndex && !decision.Redirect? ==> decision == Bind(d.reg.nextId, false, token))
  {
    TokenGetsItsSession(d, token, cluster, now);
  }

  /** A home that the peers named is remembered: for 30 seconds the client is sent there without
      asking again, over any cleanup. */
  lemma HomeRemembered(d: DriverState, token: string, cluster: Cluster, now: nat, d': DriverState,
                       expired: seq<nat>, tidied: nat, cluster': Cluster, later: nat)
    requires DriverInv(d) && d.active.None? && cluster.home.Some? && Connected(d, token, cluster, now).1 == Redirect(cluster.home.value)
    requires !(token in d.reg.remote && now - d.reg.remote[token].notedAt < 30)
    requires var d1 := Connected(d, token, cluster, now).0;
             d' == d1 || (ListsExpired(d1.reg, expired, tidied) && tidied - now < 30 && d' == Cleaned(d1, expired, tidied))
    requires later - now < 30 && cluster.home.value in cluster'.known
    ensures Connected(d', token, cluster', later).1 == Redirect(cluster.home.value)
  {
    var d1 := Connected(d, token, cluster, now).0;
    RedirectedIff(d, token, cluster, now, cluster.home.value);
    ConnectedKeeps(d, token, cluster, now);
    assert d1.reg.remote[token] == RemoteEntry(cluster.home.value, now) && token !in d1.reg.tokenIndex;
    if d' != d1 {
      CleanedExactly(d1, expired, tidied);
      CleanedRemote(d1, expired, tidied, token);
    }
    RedirectedIff(d', token, cluster', later, cluster.home.value);
  }

  /** The cleanup forgets exactly the entries that are 30 seconds old, and indexes no token anew. */
  lemma CleanedRemote(d: DriverState, expired: seq<nat>, now: nat, token: string)
    requires DriverInv(d) && ListsExpired(d.reg, expired, now)
    ensures var r := Cleaned(d, expired, now).reg;
            && (token in r.remote <==> token in d.reg.remote && now - d.reg.remote[token].notedAt < 30)
            && (token in r.remote ==> r.remote[token] == d.reg.remote[token])
            && (token in r.tokenIndex ==> token in d.reg.tokenIndex)
  {
    DestroyedRemote(d.reg, expired, now);
  }

  lemma {:induction false} DestroyedRemote(r: RegState, ids: seq<nat>, now: nat)
    ensures AllDestroyed(r, ids, now).remote == r.remote
    ensures forall token :: token in AllDestroyed(r, ids, now).tokenIndex ==> token in r.tokenIndex
  {
    if ids != [] { DestroyedRemote(r, ids[..|ids| - 1], now); }
  }

  /** What the driver answers to the connect it handles in step `n`. */
  function AnswerTo(s: System, answer: Answer): Decision
    requires s.events != [] && s.events[0].ClientConnected?
  {
    Connected(s.driver, TokenOf(s.events[0], answer), answer.cluster, answer.now).1
  }

  /** In no run is a client ever sent to a less loaded peer. */
  lemma NeverOffloads(t0: Table, ss: seq<System>, steps: seq<Step>, n: nat)
    requires SystemRun(t0, ss, steps) && n < |steps| && steps[n].Drain?
    requires ss[n].events != [] && ss[n].events[0].ClientConnected?
    ensures !AnswerTo(ss[n], steps[n].answer).Offload?
  {
    RunKeepsInv(t0, ss, steps, n);
    DrainKeepsQueue(ss[n], steps[n].answer);
    var answer := steps[n].answer;
    TokenGetsItsSession(ss[n].driver, TokenOf(ss[n].events[0], answer), answer.cluster, answer.now);
  }

  /** Two views of one session: only whether, and since when, it is suspended may differ. */
  predicate SameSession(a: Session, b: Session) {
    a.(state := Active, suspendedAt := None) == b.(state := Active, suspendedAt := None)
  }

  lemma TransitionKeepsSession(r: RegState, id: nat, next: SessionState, now: nat, k: nat)
    requires k in r.sessions
    ensures var r' := Transitioned(r, id, next, now); k in r'.sessions && SameSession(r'.sessions[k], r.sessions[k])
  {
  }

  lemma HandledKeepsSession(d: DriverState, e: NetToCompositor, answer: Answer, k: nat)
    requires DriverInv(d) && k in d.reg.sessions
    ensures var r' := Handled(d, e, answer).reg; k in r'.sessions && SameSession(r'.sessions[k], d.reg.sessions[k])
  {
    match e {
      case ClientConnected(_, _) =>
        var token := TokenOf(e, answer);
        var (r, location) := Looked(d.reg, token, answer.cluster, answer.now);
        LookedKeeps(d.reg, token, answer.cluster, answer.now);
        ConnectedResolves(d, token, answer.cluster, answer.now);
        assert SessionOk(d.reg, k);
        match r.IsResumable(token) {
          case Some(id) => TransitionKeepsSession(r, id, Active, answer.now, k);
          case None => TransitionKeepsSession(Created(r, token, answer.now), r.nextId, Active, answer.now, k);
        }
      case ClientDisconnected =>
        if d.active.Some? { TransitionKeepsSession(d.reg, d.active.value, Suspended, answer.now, k); }
      case RequestKeyframe =>
    }
  }

  /** A session stays what it is until a cleanup lists it. */
  lemma StepKeepsSession(t0: Table, s: System, step: Step, s': System, k: nat)
    requires Inv(t0, s) && Next(s, step, s') && k in s.driver.reg.sessions
    requires step.Tidy? ==> k !in step.expired
    ensures k in s'.driver.reg.sessions && SameSession(s'.driver.reg.sessions[k], s.driver.reg.sessions[k])
  {
    match step {
      case Wake(_) =>
      case Drain(answer) => HandledKeepsSession(s.driver, s.events[0], answer, k);
      case Tidy(expired, now) =>
        CleanedExactly(s.driver, expired, now);
        assert !s.driver.reg.sessions[k].IsSuspendExpired(now);
    }
  }

  lemma {:induction false} RunKeepsSession(t0: Table, ss: seq<System>, steps: seq<Step>, i: nat, j: nat, k: nat)
    requires SystemRun(t0, ss, steps) && i <= j < |ss| && k in ss[i].driver.reg.sessions
    requires forall n :: i <= n < j && steps[n].Tidy? ==> k !in steps[n].expired
    ensures k in ss[j].driver.reg.sessions && SameSession(ss[j].driver.reg.sessions[k], ss[i].driver.reg.sessions[k])
  {
    if i < j {
      RunKeepsSession(t0, ss, steps, i, j - 1, k);
      RunKeepsInv(t0, ss, steps, j - 1);
      assert Next(ss[j - 1], steps[j - 1], ss[j]);
      StepKeepsSession(t0, ss[j - 1], steps[j - 1], ss[j], k);
    }
  }

  // ----- what peers are told

  /** Once anything has been published in a run, peers are told of every session hosted here. */
  lemma PublishedIsEnough(t0: Table, ss: seq<System>, steps: seq<Step>, n: nat, token: string)
    requires SystemRun(t0, ss, steps) && n < |ss| && ss[n].published && ss[n].driver.reg.IsResumable(token).Some?
    ensures token in ss[n].driver.tokens
  {
    RunKeepsInv(t0, ss, steps, n);
    ResumableTokensExact(ss[n].driver.reg, token);
  }

  /** Before that they are told of nothing: a restarted server hides exactly the sessions it
      restored until its first client is bound or leaves. */
  lemma BootHidesRestored(t0: Table, s: System)
    requires Boot(s, t0)
    ensures PublishedCovers(s.driver) <==> s.driver.reg.sessions == map[]
  {
    if s.driver.reg.sessions != map[] {
      var id :| id in s.driver.reg.sessions;
      assert s.driver.reg.sessions[id].token in s.driver.reg.ResumableTokens();
    }
  }

  /** A restored session that peers are not told of. */
  lemma RestoredSessionHidden(serverId: string)
    ensures var row := Recovery.PersistedSession(1, "t", Suspended, None, serverId, 0, 0);
            var t: Table := map[1 := Record("t", "suspended", None, serverId, 0, None, 0)];
            var r := Recovery.RestoreRows(Empty(serverId), [row], 0);
            var s := System(Idle, 0, [], None, DriverState(r, None, false, {}, 0), false, false);
            Boot(s, t) && r.IsResumable("t") == Some(1) && "t" !in s.driver.tokens
  {
    var row := Recovery.PersistedSession(1, "t", Suspended, None, serverId, 0, 0);
    var t: Table := map[1 := Record("t", "suspended", None, serverId, 0, None, 0)];
    StateRoundTrip(Suspended);
    assert Recovery.RowOf(t, 1) == row && [row][0].id == 1;
    Recovery.RestoreExact(t, [row], serverId, 0);
    Recovery.RestoreMirrorsIff(t, [row], serverId, 0);
    var r := Recovery.RestoreRows(Empty(serverId), [row], 0);
    assert Recovery.Returns(t, 1) && 1 in r.sessions;
    assert SessionOk(r, 1);
  }

  // ----- crash and restart

  lemma {:induction false} ExtendRun(rs: seq<RegState>, ops: seq<Recovery.RegOp>, times: seq<nat>, more: seq<Recovery.RegOp>, now: nat)
    returns (rs': seq<RegState>, ops': seq<Recovery.RegOp>, times': seq<nat>)
    requires Recovery.Run(rs, ops, times) && AllSucceed(rs[|rs| - 1], more, now)
    ensures Recovery.Run(rs', ops', times') && rs'[0] == rs[0]
    ensures rs'[|rs'| - 1] == AfterAll(rs[|rs| - 1], more, now)
    decreases |more|
  {
    if more == [] {
      return rs, ops, times;
    }
    var n := |more| - 1;
    var rs1, ops1, times1 := ExtendRun(rs, ops, times, more[..n], now);
    rs', ops', times' := rs1 + [AfterAll(rs[|rs| - 1], more, now)], ops1 + [more[n]], times1 + [now];
    forall i | 0 <= i < |ops'| ensures Recovery.OpStep(rs'[i], ops'[i], times'[i], rs'[i + 1]) {
      if i < |ops1| {
        assert Recovery.OpStep(rs1[i], ops1[i], times1[i], rs1[i + 1]);
      }
    }
  }

  lemma OneMoreStep(t0: Table, ss: seq<System>, steps: seq<Step>, n: nat,
                    rs: seq<RegState>, ops: seq<Recovery.RegOp>, times: seq<nat>)
    returns (rs': seq<RegState>, ops': seq<Recovery.RegOp>, times': seq<nat>)
    requires SystemRun(t0, ss, steps) && n < |steps|
    requires Recovery.Run(rs, ops, times) && rs[|rs| - 1] == ss[n].driver.reg
    ensures Recovery.Run(rs', ops', times') && rs'[0] == rs[0] && rs'[|rs'| - 1] == ss[n + 1].driver.reg
  {
    NothingFails(t0, ss, steps, n);
    rs', ops', times' := ExtendRun(rs, ops, times, StepOps(ss[n], steps[n]), StepTime(steps[n]));
  }

  /** Every run of the system is a run of registry operations. */
  lemma {:induction false} RunOfOps(t0: Table, ss: seq<System>, steps: seq<Step>, n: nat)
    returns (rs: seq<RegState>, ops: seq<Recovery.RegOp>, times: seq<nat>)
    requires SystemRun(t0, ss, steps) && n < |ss|
    ensures Recovery.Run(rs, ops, times) && rs[0] == ss[0].driver.reg && rs[|rs| - 1] == ss[n].driver.reg
  {
    if n == 0 {
      rs, ops, times := [ss[0].driver.reg], [], [];
    } else {
      rs, ops, times := RunOfOps(t0, ss, steps, n - 1);
      rs, ops, times := OneMoreStep(t0, ss, steps, n - 1, rs, ops, times);
    }
  }

  /** The server may die at any point of any run, with any part of its writes in the table. The
      next process then starts in a state from which all of the above holds again, with exactly
      the sessions that the registry had at one moment `rs[i]` of the run. */
  lemma CrashThenBoot(t0: Table, ss: seq<System>, steps: seq<Step>, n: nat, k: nat,
                       rows: seq<Recovery.PersistedSession>, serverId: string, now: nat)
    returns (rs: seq<RegState>, ops: seq<Recovery.RegOp>, times: seq<nat>, i: nat)
    requires SystemRun(t0, ss, steps) && n < |ss|
    requires |ss[0].driver.reg.log| <= k <= |ss[n].driver.reg.log|
    requires Recovery.Loads(rows, ApplyOps(t0, ss[n].driver.reg.log[..k]))
    ensures Recovery.Run(rs, ops, times) && rs[0] == ss[0].driver.reg && rs[|rs| - 1] == ss[n].driver.reg && i < |rs|
    ensures var r := Recovery.RestoreRows(Empty(serverId), rows, now);
            && Boot(System(Idle, 0, [], None, DriverState(r, None, false, {}, 0), false, false),
                    ApplyOps(t0, ss[n].driver.reg.log[..k]))
            && Recovery.SameIdentities(r.sessions, Recovery.Survivors(rs[i]))
            && rs[i].log == ss[n].driver.reg.log[..k]
  {
    rs, ops, times := RunOfOps(t0, ss, steps, n);
    i := Recovery.CrashThenRestart(t0, rs, ops, times, |rs| - 1, k, rows, serverId, now);
    var t := ApplyOps(t0, ss[n].driver.reg.log[..k]);
    Recovery.MirrorRestores(rs[i], now);
    Recovery.RestoreExact(t, rows, serverId, now);
  }
}
