/**
 What every event keeps, and which registry operations it amounts to.
 */
module DriverProofs {
  import opened Wrappers
  import opened Sessions
  import opened Registry
  import opened Driver
  import LoadBalance

  // ----- between events

  /** Between events a session is active or suspended, and it is active exactly if it is the one
      the driver has bound to the connected client. */
  ghost predicate SessionAtRest(d: DriverState, id: nat)
    requires id in d.reg.sessions
  {
    var s := d.reg.sessions[id];
    s.Resumable() && (s.state.Active? <==> d.active == Some(id))
  }

  ghost predicate DriverInv(d: DriverState) {
    && RegInv(d.reg)
    && (d.active.Some? ==> d.active.value in d.reg.sessions && d.connected)
    && forall id :: id in d.reg.sessions ==> SessionAtRest(d, id)
  }

  /** Peers are told of every session hosted here, and of the true load. */
  ghost predicate PublishedCovers(d: DriverState) {
    d.reg.ResumableTokens() <= d.tokens && d.load == ActiveCount(d.reg)
  }

  lemma OneActive(d: DriverState)
    requires DriverInv(d)
    ensures ActiveCount(d.reg) == if d.active.Some? then 1 else 0
  {
    var active := set id | id in d.reg.sessions && d.reg.sessions[id].state.Active?;
    forall id | id in d.reg.sessions ensures id in active <==> d.active == Some(id) {
      assert SessionAtRest(d, id);
    }
    assert active == if d.active.Some? then {d.active.value} else {};
  }

  /** While no client is bound this server has no load, so it never places a session elsewhere: a
      connect is the only time it asks. */
  lemma NeverElsewhere(d: DriverState, cluster: Cluster)
    requires DriverInv(d) && d.active.None?
    ensures Elsewhere(d.reg, cluster).None?
  {
    OneActive(d);
    assert LoadBalance.LoadFactor(0, cluster.capacity) == 0.0;
  }

  // ----- a connect

  lemma LookedKeeps(r: RegState, token: string, cluster: Cluster, now: nat)
    requires RegInv(r)
    ensures var (r', location) := Looked(r, token, cluster, now);
            && RegInv(r') && Mirror(r') == Mirror(r)
            && r' == r.(remote := r'.remote)
            && (token in r.tokenIndex ==> location == Local(r.tokenIndex[token]) && r' == r)
  {
    RemoteKeeps(r, Looked(r, token, cluster, now).0.remote);
  }

  lemma ResumableIs(r: RegState, token: string)
    requires RegInv(r) && r.IsResumable(token).Some?
    ensures var id := r.IsResumable(token).value;
            token in r.tokenIndex && r.tokenIndex[token] == id && id in r.sessions && r.sessions[id].token == token
  {
    IndexedIsLive(r, token);
    assert SessionOk(r, r.tokenIndex[token]);
  }

  /** At rest, every indexed token can be resumed. */
  lemma IndexedIsResumable(d: DriverState, token: string)
    requires DriverInv(d) && token in d.reg.tokenIndex
    ensures d.reg.IsResumable(token) == Some(d.reg.tokenIndex[token])
  {
    IndexedIsLive(d.reg, token);
    assert SessionAtRest(d, d.reg.tokenIndex[token]) && SessionOk(d.reg, d.reg.tokenIndex[token]);
  }

  /** Activating a session while none is active leaves exactly that one active. */
  lemma ActivatedAtRest(r: RegState, d': DriverState, id: nat, now: nat)
    requires RegInv(r) && CanTransition(r, id, Active) && !r.sessions[id].state.Active?
    requires forall k :: k in r.sessions && k != id ==> r.sessions[k].state.Suspended?
    requires d'.reg == Transitioned(r, id, Active, now) && d'.active == Some(id) && d'.connected
    ensures DriverInv(d') && d'.reg.sessions[id].token == r.sessions[id].token && d'.reg.sessions[id].state.Active?
  {
    TransitionedKeepsInv(r, id, Active, now);
    forall k | k in d'.reg.sessions ensures SessionAtRest(d', k) {
    }
  }

  /** What the reply promises is so: a bound client has the one active session, and it is the
      session of the token it presented. */
  ghost predicate Serves(d: DriverState, decision: Decision) {
    if decision.Bind? then
      && d.active == Some(decision.id) && d.connected
      && decision.id in d.reg.sessions && d.reg.sessions[decision.id].state.Active?
      && d.reg.sessions[decision.id].token == decision.token
    else d.active.None?
  }

  lemma ConnectedKeeps(d: DriverState, token: string, cluster: Cluster, now: nat)
    requires DriverInv(d) && d.active.None?
    ensures var (d', decision) := Connected(d, token, cluster, now);
            DriverInv(d') && Serves(d', decision) && (decision.Bind? ==> decision.token == token)
  {
    var (r, location) := Looked(d.reg, token, cluster, now);
    LookedKeeps(d.reg, token, cluster, now);
    forall id | id in d.reg.sessions ensures d.reg.sessions[id].state.Suspended? {
      assert SessionAtRest(d, id);
    }
    if SentAway(location, cluster) || (r.IsResumable(token).None? && Elsewhere(r, cluster).Some?) {
      SubsetAtRest(d, d.(reg := r));
    } else if r.IsResumable(token).Some? {
      ResumableIs(r, token);
      ActivatedAtRest(r, Connected(d, token, cluster, now).0, r.IsResumable(token).value, now);
    } else {
      SubsetAtRest(d, d.(reg := r));
      if token in r.tokenIndex { IndexedIsResumable(d.(reg := r), token); }
      CreatedKeepsInvIff(r, token, now);
      ActivatedAtRest(Created(r, token, now), Connected(d, token, cluster, now).0, r.nextId, now);
    }
  }

  // ----- a disconnect

  lemma DisconnectedKeeps(d: DriverState, now: nat)
    requires DriverInv(d)
    ensures DriverInv(Disconnected(d, now)) && Disconnected(d, now).active.None?
    ensures d.active.Some? ==> CanTransition(d.reg, d.active.value, Suspended)
  {
    var d' := Disconnected(d, now);
    if d.active.Some? {
      TransitionedKeepsInv(d.reg, d.active.value, Suspended, now);
      assert SessionAtRest(d, d.active.value);
    }
    forall id | id in d'.reg.sessions ensures SessionAtRest(d', id) {
      assert SessionAtRest(d, id);
    }
  }

  // ----- the cleanup

  ghost predicate DestroyedOnly(r: RegState, ids: seq<nat>, r': RegState, id: nat)
    requires id in r.sessions
  {
    id in r'.sessions && if id in ids then r'.sessions[id].state.Destroyed? else r'.sessions[id] == r.sessions[id]
  }

  lemma InSnoc(ids: seq<nat>, id: nat)
    requires ids != []
    ensures id in ids <==> id in ids[..|ids| - 1] || id == ids[|ids| - 1]
  {
    assert ids == ids[..|ids| - 1] + [ids[|ids| - 1]];
  }

  lemma DestroyedOneMore(r: RegState, ids: seq<nat>, r1: RegState, now: nat, id: nat)
    requires ids != [] && id in r.sessions && DestroyedOnly(r, ids[..|ids| - 1], r1, id)
    requires CanTransition(r1, ids[|ids| - 1], Destroyed)
    ensures DestroyedOnly(r, ids, Transitioned(r1, ids[|ids| - 1], Destroyed, now), id)
  {
    InSnoc(ids, id);
  }

  lemma {:induction false} AllDestroyedIs(r: RegState, ids: seq<nat>, now: nat)
    requires RegInv(r)
    requires forall i :: 0 <= i < |ids| ==> ids[i] in r.sessions && r.sessions[ids[i]].state.Suspended?
    requires forall i, j :: 0 <= i < j < |ids| ==> ids[i] != ids[j]
    ensures var r' := AllDestroyed(r, ids, now);
            && RegInv(r') && r'.sessions.Keys == r.sessions.Keys
            && forall id :: id in r.sessions ==> DestroyedOnly(r, ids, r', id)
  {
    if ids != [] {
      var n := |ids| - 1;
      var r1 := AllDestroyed(r, ids[..n], now);
      AllDestroyedIs(r, ids[..n], now);
      assert DestroyedOnly(r, ids[..n], r1, ids[n]) && ids[n] !in ids[..n];
      TransitionedKeepsInv(r1, ids[n], Destroyed, now);
      forall id | id in r.sessions ensures DestroyedOnly(r, ids, AllDestroyed(r, ids, now), id) {
        DestroyedOneMore(r, ids, r1, now, id);
      }
    }
  }

  /** The cleanup removes exactly the expired sessions and leaves every other one as it was. */
  lemma CleanedExactly(d: DriverState, expired: seq<nat>, now: nat)
    requires DriverInv(d) && ListsExpired(d.reg, expired, now)
    ensures DriverInv(Cleaned(d, expired, now))
    ensures Cleaned(d, expired, now).reg.sessions
         == map id | id in d.reg.sessions && !d.reg.sessions[id].IsSuspendExpired(now) :: d.reg.sessions[id]
  {
    CleanedSessions(d, expired, now);
    SubsetAtRest(d, Cleaned(d, expired, now));
  }

  lemma CleanedSessions(d: DriverState, expired: seq<nat>, now: nat)
    requires DriverInv(d)
    requires forall i :: 0 <= i < |expired| ==> expired[i] in d.reg.sessions && d.reg.sessions[expired[i]].state.Suspended?
    requires forall i, j :: 0 <= i < j < |expired| ==> expired[i] != expired[j]
    ensures RegInv(Cleaned(d, expired, now).reg)
    ensures Cleaned(d, expired, now).reg.sessions == map id | id in d.reg.sessions && id !in expired :: d.reg.sessions[id]
  {
    var r := AllDestroyed(d.reg, expired, now);
    AllDestroyedIs(d.reg, expired, now);
    PurgedKeeps(r);
    var r1 := if expired != [] then Purged(r) else r;
    RemoteKeeps(r1, PrunedRemote(r1, now).remote);
    PurgedExactly(d, expired, r);
  }

  lemma PurgedExactly(d: DriverState, expired: seq<nat>, r: RegState)
    requires DriverInv(d) && r.sessions.Keys == d.reg.sessions.Keys
    requires forall id :: id in d.reg.sessions ==> DestroyedOnly(d.reg, expired, r, id)
    ensures (if expired != [] then Purged(r) else r).sessions
         == map id | id in d.reg.sessions && id !in expired :: d.reg.sessions[id]
  {
    forall id | id in d.reg.sessions ensures SessionAtRest(d, id) && DestroyedOnly(d.reg, expired, r, id) {
    }
  }

  lemma SubsetAtRest(d: DriverState, d': DriverState)
    requires DriverInv(d) && RegInv(d'.reg) && d'.active == d.active && d'.connected == d.connected
    requires forall id :: id in d'.reg.sessions ==> id in d.reg.sessions && d'.reg.sessions[id] == d.reg.sessions[id]
    requires forall id :: id in d.reg.sessions && d.reg.sessions[id].state.Active? ==> id in d'.reg.sessions
    ensures DriverInv(d')
  {
    forall id | id in d.reg.sessions ensures SessionAtRest(d, id) {
    }
    forall id | id in d'.reg.sessions ensures SessionAtRest(d', id) {
    }
  }
}
