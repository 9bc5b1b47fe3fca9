/**
 Whole runs: the serve loop fills the queue, the driver empties it and answers, the cleanup
 comes round now and then.
 */
module DriverRuns {
  import opened Wrappers
  import opened Sessions
  import opened Registry
  import opened NetworkLoop
  import opened Driver
  import opened DriverProofs
  import opened DriverOps
  import Recovery

  datatype System = System(
    net: Net,
    accepted: nat,
    events: seq<NetToCompositor>,
    /** The current connection's one-shot reply channel. */
    reply: Option<Decision>,
    driver: DriverState,
    /** The last connect or disconnect handled was a connect. */
    open: bool,
    /** The driver has published since it started. */
    published: bool)

  datatype Step =
    | Wake(w: Wakeup)
    | Drain(answer: Answer)
    | Tidy(expired: seq<nat>, now: nat)

  /** A restarted server: a restored registry, an idle network thread. */
  ghost predicate Boot(s: System, t0: Table) {
    && s == System(Idle, 0, [], None, DriverState(s.driver.reg, None, false, {}, 0), false, false)
    && RegInv(s.driver.reg) && Mirrored(t0, s.driver.reg)
    && forall id :: id in s.driver.reg.sessions ==> s.driver.reg.sessions[id].state.Suspended?
  }

  function NextReply(s: System, e: NetToCompositor, answer: Answer): Option<Decision> {
    if e.ClientConnected? && Announced(s.net) && s.net.conn == e.conn
    then Some(Connected(s.driver, TokenOf(e, answer), answer.cluster, answer.now).1)
    else s.reply
  }

  /** Only a client that is sent elsewhere leaves what was published alone. */
  predicate Publishes(d: DriverState, e: NetToCompositor, answer: Answer) {
    match e
    case ClientConnected(_, _) => Connected(d, TokenOf(e, answer), answer.cluster, answer.now).1.Bind?
    case ClientDisconnected => true
    case RequestKeyframe => false
  }

  function Woken(s: System, w: Wakeup): System
    requires Possible(s.net, w)
  {
    s.(net := NextNet(s.net, s.accepted, w), accepted := s.accepted + (if w.Routed? then 1 else 0),
       events := s.events + Emitted(s.net, w), reply := if w.Routed? then None else s.reply)
  }

  function DrainedOne(s: System, answer: Answer): System
    requires s.events != []
  {
    var e := s.events[0];
    s.(events := s.events[1..], driver := Handled(s.driver, e, answer), reply := NextReply(s, e, answer),
       open := if e.RequestKeyframe? then s.open else e.ClientConnected?,
       published := s.published || Publishes(s.driver, e, answer))
  }

  /** A client is only served once the reply says so. */
  ghost predicate Next(s: System, step: Step, s': System) {
    match step
    case Wake(w) =>
      Possible(s.net, w) && (w.Bound? ==> s.reply.Some? && s.reply.value.Bind?) && s' == Woken(s, w)
    case Drain(answer) => s.events != [] && s' == DrainedOne(s, answer)
    case Tidy(expired, now) =>
      ListsExpired(s.driver.reg, expired, now) && s' == s.(driver := Cleaned(s.driver, expired, now))
  }

  // ----- the invariant

  /** The queue between the two threads. */
  ghost predicate QueueInv(s: System) {
    && Separated(s.open, s.events) && OpenAfter(s.open, s.events) == Announced(s.net)
    && (s.driver.active.Some? ==> s.open)
  }

  ghost predicate AllKeyframes(q: seq<NetToCompositor>) {
    forall i :: 0 <= i < |q| ==> q[i].RequestKeyframe?
  }

  /** Connection numbers identify the connects in the queue. */
  ghost predicate ConnAt(s: System, i: int)
    requires 0 <= i < |s.events|
  {
    var e := s.events[i];
    e.ClientConnected? ==>
      && e.conn < s.accepted
      && (s.net.Starting? ==> e.conn != s.net.conn)
      && (Announced(s.net) && e.conn == s.net.conn ==> AllKeyframes(s.events[i + 1..]) && s.reply.None?)
  }

  ghost predicate ConnInv(s: System) {
    && (!s.net.Idle? ==> s.net.conn < s.accepted)
    && (s.net.Starting? ==> s.reply.None?)
    && forall i :: 0 <= i < |s.events| ==> ConnAt(s, i)
  }

  /** The current connection's connect is still queued, or it was answered and what the answer
      promised holds. */
  ghost predicate ReplyInv(s: System) {
    Announced(s.net) ==>
      if s.reply.None? then exists i :: 0 <= i < |s.events| && IsConnect(s.events[i], s.net.conn)
      else AllKeyframes(s.events) && s.open && Serves(s.driver, s.reply.value)
  }

  predicate IsConnect(e: NetToCompositor, conn: nat) {
    e.ClientConnected? && e.conn == conn
  }

  ghost predicate Inv(t0: Table, s: System) {
    && DriverInv(s.driver) && Mirrored(t0, s.driver.reg)
    && QueueInv(s) && ConnInv(s) && ReplyInv(s)
    && (s.net.Serving? ==> s.reply.Some? && s.reply.value.Bind?)
    && (s.reply.Some? && s.reply.value.Bind? ==> s.published)
    && (s.published ==> PublishedCovers(s.driver))
  }

  // ----- each step keeps it

  lemma {:induction false} OpenAfterKeyframes(open: bool, q: seq<NetToCompositor>)
    requires AllKeyframes(q)
    ensures OpenAfter(open, q) == open
    decreases |q|
  {
    if q != [] { OpenAfterKeyframes(open, q[1..]); }
  }

  lemma WakeKeepsQueue(s: System, w: Wakeup)
    requires QueueInv(s) && Possible(s.net, w)
    ensures QueueInv(Woken(s, w))
  {
    WakeupKeepsSeparated(s.open, s.events, s.net, s.accepted, w);
  }

  lemma WakeKeepsConns(s: System, w: Wakeup)
    requires ConnInv(s) && Possible(s.net, w)
    ensures ConnInv(Woken(s, w))
  {
    var s' := Woken(s, w);
    forall i | 0 <= i < |s'.events| ensures ConnAt(s', i) {
      if i < |s.events| {
        assert ConnAt(s, i);
        assert s'.events[i + 1..] == s.events[i + 1..] + Emitted(s.net, w);
      }
    }
  }

  lemma WakeKeepsReply(s: System, w: Wakeup)
    requires ReplyInv(s) && ConnInv(s) && Possible(s.net, w)
    ensures ReplyInv(Woken(s, w))
  {
    var s' := Woken(s, w);
    if Announced(s'.net) && s'.reply.None? {
      if w.Started? {
        assert IsConnect(s'.events[|s.events|], s'.net.conn);
      } else {
        var i :| 0 <= i < |s.events| && IsConnect(s.events[i], s.net.conn);
        assert IsConnect(s'.events[i], s'.net.conn);
      }
    }
  }

  lemma DrainKeepsQueue(s: System, answer: Answer)
    requires QueueInv(s) && DriverInv(s.driver) && s.events != []
    ensures QueueInv(DrainedOne(s, answer)) && DriverInv(DrainedOne(s, answer).driver)
    ensures s.events[0].ClientConnected? ==> s.driver.active.None?
  {
    match s.events[0] {
      case ClientConnected(_, _) => ConnectedKeeps(s.driver, TokenOf(s.events[0], answer), answer.cluster, answer.now);
      case ClientDisconnected => DisconnectedKeeps(s.driver, answer.now);
      case RequestKeyframe =>
    }
  }

  lemma DrainKeepsConns(s: System, answer: Answer)
    requires ConnInv(s) && s.events != []
    ensures ConnInv(DrainedOne(s, answer))
  {
    var s' := DrainedOne(s, answer);
    assert ConnAt(s, 0);
    forall i | 0 <= i < |s'.events| ensures ConnAt(s', i) {
      assert ConnAt(s, i + 1);
      assert s'.events[i + 1..] == s.events[i + 2..];
    }
  }

  lemma DrainKeepsReply(s: System, answer: Answer)
    requires ReplyInv(s) && ConnInv(s) && QueueInv(s) && DriverInv(s.driver) && s.events != []
    ensures ReplyInv(DrainedOne(s, answer))
  {
    var s' := DrainedOne(s, answer);
    var e := s.events[0];
    if Announced(s.net) {
      assert ConnAt(s, 0);
      if IsConnect(e, s.net.conn) {
        ConnectedKeeps(s.driver, TokenOf(e, answer), answer.cluster, answer.now);
      } else if s.reply.None? {
        var i :| 0 <= i < |s.events| && IsConnect(s.events[i], s.net.conn);
        assert IsConnect(s'.events[i - 1], s'.net.conn);
      } else {
        assert e.RequestKeyframe?;
      }
    }
  }

  lemma DrainKeepsPublished(s: System, answer: Answer)
    requires s.events != [] && (s.published ==> PublishedCovers(s.driver)) && RegInv(s.driver.reg)
    ensures DrainedOne(s, answer).published ==> PublishedCovers(DrainedOne(s, answer).driver)
  {
    var e := s.events[0];
    if e.ClientConnected? {
      LookedKeeps(s.driver.reg, TokenOf(e, answer), answer.cluster, answer.now);
    }
  }

  lemma {:induction false} OpsKeep(t0: Table, r: RegState, ops: seq<Recovery.RegOp>, now: nat)
    requires RegInv(r) && Mirrored(t0, r) && AllSucceed(r, ops, now)
    ensures Mirrored(t0, AfterAll(r, ops, now)) && RegInv(AfterAll(r, ops, now))
  {
    if ops != [] {
      OpsKeep(t0, r, ops[..|ops| - 1], now);
      Recovery.OpKeeps(t0, AfterAll(r, ops[..|ops| - 1], now), ops[|ops| - 1], now);
    }
  }

  lemma TidyKeeps(t0: Table, s: System, expired: seq<nat>, now: nat)
    requires Inv(t0, s) && ListsExpired(s.driver.reg, expired, now)
    ensures Inv(t0, s.(driver := Cleaned(s.driver, expired, now)))
  {
    var s' := s.(driver := Cleaned(s.driver, expired, now));
    CleanedIssues(s.driver, expired, now);
    OpsKeep(t0, s.driver.reg, CleanupOps(expired), now);
    CleanedExactly(s.driver, expired, now);
    assert ConnInv(s') by {
      forall i | 0 <= i < |s'.events| ensures ConnAt(s', i) {
        assert ConnAt(s, i);
      }
    }
    TidyKeepsReply(s, expired, now);
    CleanedPublished(s.driver, expired, now);
  }

  lemma TidyKeepsReply(s: System, expired: seq<nat>, now: nat)
    requires ReplyInv(s) && DriverInv(s.driver) && ListsExpired(s.driver.reg, expired, now)
    ensures ReplyInv(s.(driver := Cleaned(s.driver, expired, now)))
  {
    CleanedExactly(s.driver, expired, now);
  }

  lemma CleanedPublished(d: DriverState, expired: seq<nat>, now: nat)
    requires DriverInv(d) && ListsExpired(d.reg, expired, now)
    ensures PublishedCovers(d) ==> PublishedCovers(Cleaned(d, expired, now))
  {
    CleanedExactly(d, expired, now);
    OneActive(d);
    OneActive(Cleaned(d, expired, now));
  }

  lemma NextKeepsInv(t0: Table, s: System, step: Step, s': System)
    requires Inv(t0, s) && Next(s, step, s')
    ensures Inv(t0, s')
  {
    match step {
      case Wake(w) =>
        WakeKeepsQueue(s, w);
        WakeKeepsConns(s, w);
        WakeKeepsReply(s, w);
      case Drain(answer) =>
        DrainKeepsQueue(s, answer);
        DrainKeepsConns(s, answer);
        DrainKeepsReply(s, answer);
        DrainKeepsPublished(s, answer);
        HandledIssues(s.driver, s.events[0], answer);
        OpsKeep(t0, s.driver.reg, Issued(s.driver, s.events[0], answer), answer.now);
      case Tidy(expired, now) => TidyKeeps(t0, s, expired, now);
    }
  }
}
