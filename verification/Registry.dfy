/**
 The session registry: sessions by id, live sessions by token, tokens known to live on other
 servers, and the writes handed to the store so far.
 */
module Registry {
  import opened Wrappers
  import opened Sessions

  /** How long a cached remote location is trusted. */
  const REMOTE_SESSION_TTL: nat := 30

  datatype RemoteEntry = RemoteEntry(serverId: string, notedAt: nat)

  datatype SessionLocation = Local(id: nat) | Remote(serverId: string) | Unknown

  datatype RegState = RegState(
    sessions: map<nat, Session>,
    tokenIndex: map<string, nat>,
    nextId: nat,
    serverId: string,
    remote: map<string, RemoteEntry>,
    log: seq<Op>)
  {
    predicate FreshRemote(token: string, now: nat) {
      token in remote && now - remote[token].notedAt < REMOTE_SESSION_TTL
    }

    function Locate(token: string, now: nat): SessionLocation {
      if token in tokenIndex then Local(tokenIndex[token])
      else if FreshRemote(token, now) then Remote(remote[token].serverId)
      else Unknown
    }

    function IsResumable(token: string): Option<nat> {
      if token in tokenIndex && tokenIndex[token] in sessions && sessions[tokenIndex[token]].Resumable()
      then Some(sessions[tokenIndex[token]].id) else None
    }

    function ResumableTokens(): set<string> {
      set id | id in sessions && sessions[id].Resumable() :: sessions[id].token
    }
  }

  function Empty(serverId: string): RegState {
    RegState(map[], map[], 1, serverId, map[], [])
  }

  function Created(r: RegState, token: string, now: nat): RegState {
    var s := NewSession(r.nextId, token, r.serverId, now);
    r.(nextId := r.nextId + 1, log := r.log + [Save(s.id, RecordOf(s))], remote := r.remote - {token},
       tokenIndex := r.tokenIndex[token := s.id], sessions := r.sessions[s.id := s])
  }

  predicate CanTransition(r: RegState, id: nat, next: SessionState) {
    id in r.sessions && r.sessions[id].state.CanTransitionTo(next)
  }

  /** Unchanged when the transition is refused. */
  function Transitioned(r: RegState, id: nat, next: SessionState, now: nat): RegState {
    if !CanTransition(r, id, next) then r else
      var s := r.sessions[id].Transitioned(next, now).value;
      var moved := r.(sessions := r.sessions[id := s]);
      if next.Destroyed? then moved.(tokenIndex := r.tokenIndex - {s.token}, log := r.log + [Delete(id)])
      else moved.(log := r.log + [Save(id, RecordOf(s))])
  }

  function WithUser(r: RegState, id: nat, user: string): RegState {
    if id !in r.sessions then r else
      var s := r.sessions[id].(user := Some(user));
      r.(sessions := r.sessions[id := s], log := r.log + [Save(s.id, RecordOf(s))])
  }

  function WithTimeout(r: RegState, id: nat, timeout: nat): RegState {
    if id !in r.sessions then r else
      var s := r.sessions[id].(suspendTimeout := timeout);
      r.(sessions := r.sessions[id := s], log := r.log + [Save(s.id, RecordOf(s))])
  }

  function Purged(r: RegState): RegState {
    r.(sessions := map id | id in r.sessions && r.sessions[id].Live() :: r.sessions[id])
  }

  function NotedRemote(r: RegState, token: string, serverId: string, now: nat): RegState {
    r.(remote := r.remote[token := RemoteEntry(serverId, now)])
  }

  function PrunedRemote(r: RegState, now: nat): RegState {
    r.(remote := map t | t in r.remote && r.FreshRemote(t, now) :: r.remote[t])
  }

  function AllDestroyed(r: RegState, ids: seq<nat>, now: nat): RegState {
    if ids == [] then r
    else Transitioned(AllDestroyed(r, ids[..|ids| - 1], now), ids[|ids| - 1], Destroyed, now)
  }

  /** `ids` lists the expired sessions, each once, in some order. */
  ghost predicate ListsExpired(r: RegState, ids: seq<nat>, now: nat) {
    && (forall i :: 0 <= i < |ids| ==> ids[i] in r.sessions && r.sessions[ids[i]].IsSuspendExpired(now))
    && (forall id :: id in r.sessions && r.sessions[id].IsSuspendExpired(now) ==> id in ids)
    && (forall i, j :: 0 <= i < j < |ids| ==> ids[i] != ids[j])
  }

  class SessionRegistry {
    var sessions: map<nat, Session>
    var tokenIndex: map<string, nat>
    var nextId: nat
    var localServerId: string
    var remoteSessions: map<string, RemoteEntry>
    /** Writes handed to the store, in order. */
    var store: seq<Op>

    function State(): RegState
      reads this
    {
      RegState(sessions, tokenIndex, nextId, localServerId, remoteSessions, store)
    }

    constructor (serverId: string)
      ensures State() == Empty(serverId)
    {
      sessions, tokenIndex, nextId, localServerId, remoteSessions, store := map[], map[], 1, serverId, map[], [];
    }

    method CreateSession(token: string, now: nat) returns (id: nat)
      modifies this
      ensures id == old(nextId) && State() == Created(old(State()), token, now)
    {
      id := nextId;
      nextId := nextId + 1;
      var session := NewSession(id, token, localServerId, now);
      store := store + [Save(session.id, RecordOf(session))];
      remoteSessions := remoteSessions - {token};
      tokenIndex := tokenIndex[token := id];
      sessions := sessions[id := session];
    }

    method Transition(id: nat, next: SessionState, now: nat) returns (ok: bool)
      modifies this
      ensures ok == CanTransition(old(State()), id, next)
      ensures State() == Transitioned(old(State()), id, next, now)
    {
      if id !in sessions {
        return false;
      }
      var moved := sessions[id].Transitioned(next, now);
      if moved.None? {
        return false;
      }
      sessions := sessions[id := moved.value];
      if next == Destroyed {
        tokenIndex := tokenIndex - {moved.value.token};
        store := store + [Delete(id)];
      } else {
        store := store + [Save(id, RecordOf(moved.value))];
      }
      ok := true;
    }

    method SetUser(id: nat, user: string)
      modifies this
      ensures State() == WithUser(old(State()), id, user)
    {
      if id in sessions {
        var session := sessions[id].(user := Some(user));
        sessions := sessions[id := session];
        store := store + [Save(session.id, RecordOf(session))];
      }
    }

    method SetSuspendTimeout(id: nat, timeout: nat)
      modifies this
      ensures State() == WithTimeout(old(State()), id, timeout)
    {
      if id in sessions {
        var session := sessions[id].(suspendTimeout := timeout);
        sessions := sessions[id := session];
        store := store + [Save(session.id, RecordOf(session))];
      }
    }

    method NoteRemoteSession(token: string, serverId: string, now: nat)
      modifies this
      ensures State() == NotedRemote(old(State()), token, serverId, now)
    {
      remoteSessions := remoteSessions[token := RemoteEntry(serverId, now)];
    }

    method PruneRemoteSessions(now: nat)
      modifies this
      ensures State() == PrunedRemote(old(State()), now)
    {
      remoteSessions := map t | t in remoteSessions && State().FreshRemote(t, now) :: remoteSessions[t];
    }

    /** The ids of the expired sessions, gathered from the session map in no particular order. */
    method CollectExpired(now: nat) returns (ids: seq<nat>)
      ensures ListsExpired(State(), ids, now)
    {
      ids := [];
      var rest := sessions.Keys;
      while rest != {}
        invariant rest <= sessions.Keys
        invariant forall i :: 0 <= i < |ids| ==>
                    ids[i] in sessions && ids[i] !in rest && sessions[ids[i]].IsSuspendExpired(now)
        invariant forall id :: id in sessions && sessions[id].IsSuspendExpired(now) ==> id in rest || id in ids
        invariant forall i, j :: 0 <= i < j < |ids| ==> ids[i] != ids[j]
        decreases rest
      {
        var id :| id in rest;
        rest := rest - {id};
        if sessions[id].IsSuspendExpired(now) {
          ids := ids + [id];
        }
      }
    }

    method CleanupExpired(now: nat) returns (expired: seq<nat>)
      modifies this
      ensures ListsExpired(old(State()), expired, now)
      ensures State() == AllDestroyed(old(State()), expired, now)
    {
      expired := CollectExpired(now);
      var i := 0;
      while i < |expired|
        invariant 0 <= i <= |expired|
        invariant State() == AllDestroyed(old(State()), expired[..i], now)
      {
        assert expired[..i + 1][..i] == expired[..i];
        var _ := Transition(expired[i], Destroyed, now);
        i := i + 1;
      }
      assert expired[..i] == expired;
    }

    method PurgeDestroyed()
      modifies this
      ensures State() == Purged(old(State()))
    {
      sessions := map id | id in sessions && sessions[id].Live() :: sessions[id];
    }
  }

  // ----- the invariant

  /** One session: filed under its id, which was issued; a suspension time exactly while it is
      suspended; and its token leads to it exactly while it is live. */
  ghost predicate SessionOk(r: RegState, id: nat)
    requires id in r.sessions
  {
    var s := r.sessions[id];
    && s.id == id && id < r.nextId
    && (s.suspendedAt.Some? <==> s.state.Suspended?)
    && (s.Live() <==> s.token in r.tokenIndex && r.tokenIndex[s.token] == id)
  }

  ghost predicate TokenOk(r: RegState, token: string)
    requires token in r.tokenIndex
  {
    r.tokenIndex[token] in r.sessions && r.sessions[r.tokenIndex[token]].token == token
  }

  ghost predicate RegInv(r: RegState) {
    && (forall id :: id in r.sessions ==> SessionOk(r, id))
    && (forall token :: token in r.tokenIndex ==> TokenOk(r, token))
  }

  /** The table a registry ought to have: one row for each live session. */
  ghost function Mirror(r: RegState): Table {
    map id | id in r.sessions && r.sessions[id].Live() :: RecordOf(r.sessions[id])
  }

  /** The store, started on table `t0`, has been told everything. */
  ghost predicate Mirrored(t0: Table, r: RegState) {
    ApplyOps(t0, r.log) == Mirror(r)
  }

  /** The token index is a bijection between the live sessions and their tokens. */
  lemma LiveTokensUnique(r: RegState, a: nat, b: nat)
    requires RegInv(r) && a in r.sessions && b in r.sessions
    requires r.sessions[a].Live() && r.sessions[b].Live() && r.sessions[a].token == r.sessions[b].token
    ensures a == b
  {
    assert SessionOk(r, a) && SessionOk(r, b);
  }

  lemma IndexedIsLive(r: RegState, token: string)
    requires RegInv(r) && token in r.tokenIndex
    ensures r.tokenIndex[token] in r.sessions && r.sessions[r.tokenIndex[token]].Live()
         && r.sessions[r.tokenIndex[token]].token == token
  {
    assert TokenOk(r, token);
    assert SessionOk(r, r.tokenIndex[token]);
  }

  /** The published set names exactly the tokens a client could resume with. */
  lemma ResumableTokensExact(r: RegState, token: string)
    requires RegInv(r)
    ensures token in r.ResumableTokens() <==> r.IsResumable(token).Some?
  {
    if token in r.ResumableTokens() {
      var id :| id in r.sessions && r.sessions[id].Resumable() && r.sessions[id].token == token;
      assert SessionOk(r, id);
    }
    if r.IsResumable(token).Some? {
      IndexedIsLive(r, token);
      assert r.sessions[r.tokenIndex[token]].token in r.ResumableTokens();
    }
  }

  // ----- creating

  /** Creating a session keeps the registry's invariant exactly when its token is not indexed yet. */
  lemma CreatedKeepsInvIff(r: RegState, token: string, now: nat)
    requires RegInv(r)
    ensures RegInv(Created(r, token, now)) <==> token !in r.tokenIndex
  {
    var r' := Created(r, token, now);
    if token in r.tokenIndex {
      var id := r.tokenIndex[token];
      IndexedIsLive(r, token);
      assert SessionOk(r, id);
      assert !SessionOk(r', id);
    } else {
      forall id | id in r'.sessions ensures SessionOk(r', id) {
        if id != r.nextId { assert SessionOk(r, id); }
      }
      forall t | t in r'.tokenIndex ensures TokenOk(r', t) {
        if t != token {
          assert TokenOk(r, t);
          assert SessionOk(r, r.tokenIndex[t]);
        }
      }
    }
  }

  /** A token given two sessions leaves the first one live but unreachable. */
  lemma SecondSessionBreaksIndex(token: string)
    ensures var once := Created(Empty(""), token, 0); RegInv(once) && !RegInv(Created(once, token, 0))
  {
    CreatedKeepsInvIff(Empty(""), token, 0);
    CreatedKeepsInvIff(Created(Empty(""), token, 0), token, 0);
  }

  lemma CreatedKeepsMirror(r: RegState, token: string, now: nat)
    requires RegInv(r)
    ensures Mirror(Created(r, token, now))
         == ApplyOp(Mirror(r), Save(r.nextId, RecordOf(NewSession(r.nextId, token, r.serverId, now))))
  {
    var r' := Created(r, token, now);
    forall id | id in r.sessions ensures id != r.nextId { assert SessionOk(r, id); }
    assert Mirror(r') == Mirror(r)[r.nextId := RecordOf(r'.sessions[r.nextId])];
  }

  // ----- transitions

  lemma TransitionedKeepsInv(r: RegState, id: nat, next: SessionState, now: nat)
    requires RegInv(r)
    ensures RegInv(Transitioned(r, id, next, now))
  {
    var r' := Transitioned(r, id, next, now);
    if CanTransition(r, id, next) {
      assert SessionOk(r, id);
      forall k | k in r'.sessions ensures SessionOk(r', k) {
        assert SessionOk(r, k);
      }
      forall t | t in r'.tokenIndex ensures TokenOk(r', t) {
        assert TokenOk(r, t);
      }
    }
  }

  /** The one write a change of session `id` sends. */
  ghost function WriteOf(r': RegState, id: nat): Op
    requires id in r'.sessions
  {
    if r'.sessions[id].Live() then Save(id, RecordOf(r'.sessions[id])) else Delete(id)
  }

  lemma MirrorOfOneChange(r: RegState, r': RegState, id: nat)
    requires id in r.sessions && id in r'.sessions && r'.sessions == r.sessions[id := r'.sessions[id]]
    ensures Mirror(r') == ApplyOp(Mirror(r), WriteOf(r', id))
  {
    var live := r'.sessions[id].Live();
    assert Mirror(r') == if live then Mirror(r)[id := RecordOf(r'.sessions[id])] else Mirror(r) - {id};
  }

  lemma TransitionedKeepsMirror(r: RegState, id: nat, next: SessionState, now: nat)
    requires RegInv(r) && CanTransition(r, id, next)
    ensures Transitioned(r, id, next, now).log == r.log + [WriteOf(Transitioned(r, id, next, now), id)]
    ensures Mirror(Transitioned(r, id, next, now)) == ApplyOp(Mirror(r), WriteOf(Transitioned(r, id, next, now), id))
  {
    assert SessionOk(r, id);
    MirrorOfOneChange(r, Transitioned(r, id, next, now), id);
  }

  // ----- changing a field

  lemma EditKeepsInv(r: RegState, id: nat, s: Session, log: seq<Op>)
    requires RegInv(r) && id in r.sessions
    requires s.id == r.sessions[id].id && s.token == r.sessions[id].token && s.state == r.sessions[id].state
    requires s.suspendedAt == r.sessions[id].suspendedAt
    ensures RegInv(r.(sessions := r.sessions[id := s], log := log))
  {
    var r' := r.(sessions := r.sessions[id := s], log := log);
    forall k | k in r'.sessions ensures SessionOk(r', k) {
      assert SessionOk(r, k);
    }
    forall t | t in r'.tokenIndex ensures TokenOk(r', t) {
      assert TokenOk(r, t);
    }
  }

  /** Setting the user keeps the table a mirror exactly when the session is unknown or live: a
      destroyed session that was not purged yet gets its row back. */
  lemma WithUserKeepsMirrorIff(t0: Table, r: RegState, id: nat, user: string)
    requires RegInv(r) && Mirrored(t0, r)
    ensures RegInv(WithUser(r, id, user))
    ensures Mirrored(t0, WithUser(r, id, user)) <==> (id in r.sessions ==> r.sessions[id].Live())
  {
    if id in r.sessions {
      var r' := WithUser(r, id, user);
      EditKeepsInv(r, id, r'.sessions[id], r'.log);
      EditMirror(t0, r, r', id);
    }
  }

  /** A destroyed session's row comes back when its user is set before it is purged. */
  lemma DestroyedRowComesBack(token: string, user: string)
    ensures var r := Transitioned(Created(Empty(""), token, 0), 1, Destroyed, 0);
            RegInv(r) && Mirrored(map[], r) && !Mirrored(map[], WithUser(r, 1, user))
  {
    var r0 := Empty("");
    var r1 := Created(r0, token, 0);
    var r2 := Transitioned(r1, 1, Destroyed, 0);
    CreatedKeepsInvIff(r0, token, 0);
    CreatedKeepsMirror(r0, token, 0);
    ApplyOpsSnoc(map[], r0.log, r1.log[0]);
    TransitionedKeepsInv(r1, 1, Destroyed, 0);
    TransitionedKeepsMirror(r1, 1, Destroyed, 0);
    ApplyOpsSnoc(map[], r1.log, WriteOf(r2, 1));
    WithUserKeepsMirrorIff(map[], r2, 1, user);
  }

  lemma WithTimeoutKeepsMirrorIff(t0: Table, r: RegState, id: nat, timeout: nat)
    requires RegInv(r) && Mirrored(t0, r)
    ensures RegInv(WithTimeout(r, id, timeout))
    ensures Mirrored(t0, WithTimeout(r, id, timeout)) <==> (id in r.sessions ==> r.sessions[id].Live())
  {
    if id in r.sessions {
      var r' := WithTimeout(r, id, timeout);
      EditKeepsInv(r, id, r'.sessions[id], r'.log);
      EditMirror(t0, r, r', id);
    }
  }

  lemma EditMirror(t0: Table, r: RegState, r': RegState, id: nat)
    requires RegInv(r) && Mirrored(t0, r) && id in r.sessions && id in r'.sessions
    requires r'.sessions == r.sessions[id := r'.sessions[id]]
    requires r'.sessions[id].id == id && r'.sessions[id].state == r.sessions[id].state
    requires r'.log == r.log + [Save(id, RecordOf(r'.sessions[id]))]
    ensures Mirrored(t0, r') <==> r.sessions[id].Live()
  {
    ApplyOpsSnoc(t0, r.log, Save(id, RecordOf(r'.sessions[id])));
    MirrorOfOneChange(r, r', id);
    if !r.sessions[id].Live() {
      assert id in ApplyOps(t0, r'.log) && id !in Mirror(r');
    }
  }

  // ----- dropping destroyed sessions, remote locations

  lemma PurgedKeeps(r: RegState)
    requires RegInv(r)
    ensures RegInv(Purged(r)) && Mirror(Purged(r)) == Mirror(r)
    ensures Purged(r).tokenIndex == r.tokenIndex && Purged(r).ResumableTokens() == r.ResumableTokens()
  {
    var r' := Purged(r);
    forall id | id in r'.sessions ensures SessionOk(r', id) {
      assert SessionOk(r, id);
    }
    forall t | t in r'.tokenIndex ensures TokenOk(r', t) {
      IndexedIsLive(r, t);
    }
  }

  lemma RemoteKeeps(r: RegState, remote: map<string, RemoteEntry>)
    requires RegInv(r)
    ensures RegInv(r.(remote := remote)) && Mirror(r.(remote := remote)) == Mirror(r)
  {
    var r' := r.(remote := remote);
    forall id | id in r'.sessions ensures SessionOk(r', id) {
      assert SessionOk(r, id);
    }
    forall t | t in r'.tokenIndex ensures TokenOk(r', t) {
      assert TokenOk(r, t);
    }
  }
}
