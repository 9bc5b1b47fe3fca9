/**
 Every event the driver handles, as the list of registry operations it issues: none of them
 fails, and each one is used as the registry asks.
 */
module DriverOps {
  import opened Wrappers
  import opened Sessions
  import opened Registry
  import opened NetworkLoop
  import opened Driver
  import opened DriverProofs
  import opened Recovery

  function Probe(r: RegState, token: string, cluster: Cluster, now: nat): seq<RegOp> {
    if r.Locate(token, now).Unknown? && cluster.home.Some? then [Note(token, cluster.home.value)] else []
  }

  /** The operations of one connect once the token has been looked up: nothing when the client is
      sent elsewhere, otherwise a resume, or a creation and an activation. */
  function Binding(r: RegState, location: SessionLocation, token: string, cluster: Cluster): seq<RegOp> {
    if SentAway(location, cluster) then []
    else match r.IsResumable(token)
      case Some(id) => [Move(id, Active)]
      case None => if Elsewhere(r, cluster).Some? then [] else [Create(token), Move(r.nextId, Active)]
  }

  function Issued(d: DriverState, e: NetToCompositor, answer: Answer): seq<RegOp> {
    match e
    case ClientConnected(_, _) =>
      var token := TokenOf(e, answer);
      var (r, location) := Looked(d.reg, token, answer.cluster, answer.now);
      Probe(d.reg, token, answer.cluster, answer.now) + Binding(r, location, token, answer.cluster)
    case ClientDisconnected => if d.active.Some? then [Move(d.active.value, Suspended)] else []
    case RequestKeyframe => []
  }

  function Destructions(ids: seq<nat>): seq<RegOp> {
    if ids == [] then [] else Destructions(ids[..|ids| - 1]) + [Move(ids[|ids| - 1], Destroyed)]
  }

  function CleanupOps(expired: seq<nat>): seq<RegOp> {
    Destructions(expired) + (if expired != [] then [Purge] else []) + [Prune]
  }

  function AfterAll(r: RegState, ops: seq<RegOp>, now: nat): RegState {
    if ops == [] then r else After(AfterAll(r, ops[..|ops| - 1], now), ops[|ops| - 1], now)
  }

  /** The operation is one the registry accepts: no second session for an indexed token, and no
      transition the lifecycle forbids. */
  predicate Succeeds(r: RegState, op: RegOp) {
    Allowed(r, op) && (op.Move? ==> CanTransition(r, op.id, op.next))
  }

  predicate AllSucceed(r: RegState, ops: seq<RegOp>, now: nat) {
    ops == [] ||
    (AllSucceed(r, ops[..|ops| - 1], now) && Succeeds(AfterAll(r, ops[..|ops| - 1], now), ops[|ops| - 1]))
  }

  lemma AfterSnoc(r: RegState, ops: seq<RegOp>, op: RegOp, now: nat)
    ensures AfterAll(r, ops + [op], now) == After(AfterAll(r, ops, now), op, now)
    ensures AllSucceed(r, ops + [op], now) <==> AllSucceed(r, ops, now) && Succeeds(AfterAll(r, ops, now), op)
  {
    assert (ops + [op])[..|ops|] == ops;
  }

  lemma AfterOne(r: RegState, op: RegOp, now: nat)
    ensures AfterAll(r, [op], now) == After(r, op, now) && (AllSucceed(r, [op], now) <==> Succeeds(r, op))
  {
    AfterSnoc(r, [], op, now);
    assert [op] == [] + [op];
  }

  // ----- connects and disconnects

  lemma ProbeIs(r: RegState, token: string, cluster: Cluster, now: nat)
    ensures AfterAll(r, Probe(r, token, cluster, now), now) == Looked(r, token, cluster, now).0
    ensures AllSucceed(r, Probe(r, token, cluster, now), now)
  {
    if Probe(r, token, cluster, now) != [] {
      AfterOne(r, Note(token, cluster.home.value), now);
    }
  }

  /** Handling one event changes the registry exactly by the operations listed, and every one of
      them succeeds: a token that gets a new session is not indexed, every activation and every
      suspension is of a session in the right state. In particular the session a client resumes is
      never already active, so no live session is taken over from a connected client. */
  lemma HandledIssues(d: DriverState, e: NetToCompositor, answer: Answer)
    requires DriverInv(d) && (e.ClientConnected? ==> d.active.None?)
    ensures Handled(d, e, answer).reg == AfterAll(d.reg, Issued(d, e, answer), answer.now)
    ensures AllSucceed(d.reg, Issued(d, e, answer), answer.now)
  {
    match e {
      case ClientConnected(_, _) => ConnectIssues(d, TokenOf(e, answer), answer.cluster, answer.now);
      case ClientDisconnected =>
        if d.active.Some? {
          DisconnectedKeeps(d, answer.now);
          AfterOne(d.reg, Move(d.active.value, Suspended), answer.now);
        }
      case RequestKeyframe =>
    }
  }

  lemma {:induction false} AfterConcat(r: RegState, a: seq<RegOp>, b: seq<RegOp>, now: nat)
    ensures AfterAll(r, a + b, now) == AfterAll(AfterAll(r, a, now), b, now)
    ensures AllSucceed(r, a + b, now) <==> AllSucceed(r, a, now) && AllSucceed(AfterAll(r, a, now), b, now)
  {
    if b == [] {
      assert a + b == a;
    } else {
      var n := |b| - 1;
      AfterConcat(r, a, b[..n], now);
      AfterSnoc(r, a + b[..n], b[n], now);
      assert a + b[..n] + [b[n]] == a + b;
    }
  }

  /** The registry once the client is bound, from the one in which its token was looked up. */
  function Resolved(r: RegState, location: SessionLocation, token: string, cluster: Cluster, now: nat): RegState {
    if SentAway(location, cluster) then r
    else match r.IsResumable(token)
      case Some(id) => if NeedsActivation(r, id) then Transitioned(r, id, Active, now) else r
      case None => if Elsewhere(r, cluster).Some? then r else Transitioned(Created(r, token, now), r.nextId, Active, now)
  }

  lemma ConnectedResolves(d: DriverState, token: string, cluster: Cluster, now: nat)
    ensures var (r, location) := Looked(d.reg, token, cluster, now);
            Connected(d, token, cluster, now).0.reg == Resolved(r, location, token, cluster, now)
  {
  }

  lemma BindingIs(d: DriverState, location: SessionLocation, token: string, cluster: Cluster, now: nat)
    requires DriverInv(d) && d.active.None?
    ensures AfterAll(d.reg, Binding(d.reg, location, token, cluster), now) == Resolved(d.reg, location, token, cluster, now)
    ensures AllSucceed(d.reg, Binding(d.reg, location, token, cluster), now)
  {
    if SentAway(location, cluster) {
    } else if d.reg.IsResumable(token).Some? {
      var id := d.reg.IsResumable(token).value;
      ResumableIs(d.reg, token);
      assert SessionAtRest(d, id);
      AfterOne(d.reg, Move(id, Active), now);
    } else if Elsewhere(d.reg, cluster).None? {
      if token in d.reg.tokenIndex { IndexedIsResumable(d, token); }
      AfterOne(d.reg, Create(token), now);
      AfterSnoc(d.reg, [Create(token)], Move(d.reg.nextId, Active), now);
    }
  }

  lemma ConnectIssues(d: DriverState, token: string, cluster: Cluster, now: nat)
    requires DriverInv(d) && d.active.None?
    ensures var (r, location) := Looked(d.reg, token, cluster, now);
            var ops := Probe(d.reg, token, cluster, now) + Binding(r, location, token, cluster);
            && Connected(d, token, cluster, now).0.reg == AfterAll(d.reg, ops, now)
            && AllSucceed(d.reg, ops, now)
  {
    var (r, location) := Looked(d.reg, token, cluster, now);
    ProbeIs(d.reg, token, cluster, now);
    LookedKeeps(d.reg, token, cluster, now);
    SubsetAtRest(d, d.(reg := r));
    BindingIs(d.(reg := r), location, token, cluster, now);
    AfterConcat(d.reg, Probe(d.reg, token, cluster, now), Binding(r, location, token, cluster), now);
    ConnectedResolves(d, token, cluster, now);
  }

  // ----- the cleanup

  lemma {:induction false} DestructionsIs(r: RegState, ids: seq<nat>, now: nat)
    requires RegInv(r)
    requires forall i :: 0 <= i < |ids| ==> ids[i] in r.sessions && r.sessions[ids[i]].state.Suspended?
    requires forall i, j :: 0 <= i < j < |ids| ==> ids[i] != ids[j]
    ensures AfterAll(r, Destructions(ids), now) == AllDestroyed(r, ids, now)
    ensures AllSucceed(r, Destructions(ids), now)
  {
    if ids != [] {
      var n := |ids| - 1;
      DestructionsIs(r, ids[..n], now);
      AllDestroyedIs(r, ids[..n], now);
      assert DestroyedOnly(r, ids[..n], AllDestroyed(r, ids[..n], now), ids[n]) && ids[n] !in ids[..n];
      AfterSnoc(r, Destructions(ids[..n]), Move(ids[n], Destroyed), now);
    }
  }

  lemma CleanedIssues(d: DriverState, expired: seq<nat>, now: nat)
    requires DriverInv(d) && ListsExpired(d.reg, expired, now)
    ensures Cleaned(d, expired, now).reg == AfterAll(d.reg, CleanupOps(expired), now)
    ensures AllSucceed(d.reg, CleanupOps(expired), now)
  {
    DestructionsIs(d.reg, expired, now);
    var ops := Destructions(expired);
    if expired != [] {
      AfterSnoc(d.reg, ops, Purge, now);
      AfterSnoc(d.reg, ops + [Purge], Prune, now);
    } else {
      AfterSnoc(d.reg, ops, Prune, now);
      assert CleanupOps(expired) == ops + [Prune];
    }
  }
}
