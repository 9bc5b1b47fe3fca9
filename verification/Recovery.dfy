/**
 Crash and restart. The store may have applied any prefix of the writes it was handed when the
 process dies; the next process rebuilds its registry from whatever is in the table.
 */
module Recovery {
  import opened Numbers
  import opened Wrappers
  import opened Sessions
  import opened Registry

  // ----- runs of registry operations

  datatype RegOp =
    | Create(token: string)
    | Move(id: nat, next: SessionState)
    | SetUser(id: nat, user: string)
    | SetTimeout(id: nat, timeout: nat)
    | Purge
    | Note(token: string, serverId: string)
    | Prune

  /** What the registry asks of its callers: do not create a second live session for a token,
      and do not edit a destroyed one. */
  predicate Allowed(r: RegState, op: RegOp) {
    match op
    case Create(token) => token !in r.tokenIndex
    case SetUser(id, _) => id in r.sessions ==> r.sessions[id].Live()
    case SetTimeout(id, _) => id in r.sessions ==> r.sessions[id].Live()
    case _ => true
  }

  function After(r: RegState, op: RegOp, now: nat): RegState {
    match op
    case Create(token) => Created(r, token, now)
    case Move(id, next) => Transitioned(r, id, next, now)
    case SetUser(id, user) => WithUser(r, id, user)
    case SetTimeout(id, timeout) => WithTimeout(r, id, timeout)
    case Purge => Purged(r)
    case Note(token, serverId) => NotedRemote(r, token, serverId, now)
    case Prune => PrunedRemote(r, now)
  }

  /** Every operation keeps the registry's invariant and the mirror, and hands the store at most
      one write. */
  lemma OpKeeps(t0: Table, r: RegState, op: RegOp, now: nat)
    requires RegInv(r) && Mirrored(t0, r) && Allowed(r, op)
    ensures RegInv(After(r, op, now)) && Mirrored(t0, After(r, op, now))
    ensures After(r, op, now).log == r.log || exists w :: After(r, op, now).log == r.log + [w]
  {
    match op {
      case Create(token) =>
        CreatedKeepsInvIff(r, token, now);
        CreatedKeepsMirror(r, token, now);
        ApplyOpsSnoc(t0, r.log, Created(r, token, now).log[|r.log|]);
      case Move(id, next) =>
        TransitionedKeepsInv(r, id, next, now);
        if CanTransition(r, id, next) {
          TransitionedKeepsMirror(r, id, next, now);
          ApplyOpsSnoc(t0, r.log, WriteOf(Transitioned(r, id, next, now), id));
        }
      case SetUser(id, user) => WithUserKeepsMirrorIff(t0, r, id, user);
      case SetTimeout(id, timeout) => WithTimeoutKeepsMirrorIff(t0, r, id, timeout);
      case Purge => PurgedKeeps(r);
      case Note(token, serverId) => RemoteKeeps(r, NotedRemote(r, token, serverId, now).remote);
      case Prune => RemoteKeeps(r, PrunedRemote(r, now).remote);
    }
  }

  ghost predicate OpStep(r: RegState, op: RegOp, now: nat, r': RegState) {
    Allowed(r, op) && r' == After(r, op, now)
  }

  ghost predicate Run(rs: seq<RegState>, ops: seq<RegOp>, times: seq<nat>) {
    |rs| == |ops| + 1 && |times| == |ops|
    && forall i :: 0 <= i < |ops| ==> OpStep(rs[i], ops[i], times[i], rs[i + 1])
  }

  lemma {:induction false} RunKeeps(t0: Table, rs: seq<RegState>, ops: seq<RegOp>, times: seq<nat>, n: nat)
    requires Run(rs, ops, times) && RegInv(rs[0]) && Mirrored(t0, rs[0]) && n < |rs|
    ensures RegInv(rs[n]) && Mirrored(t0, rs[n]) && rs[0].log <= rs[n].log
  {
    if n > 0 {
      RunKeeps(t0, rs, ops, times, n - 1);
      assert OpStep(rs[n - 1], ops[n - 1], times[n - 1], rs[n]);
      OpKeeps(t0, rs[n - 1], ops[n - 1], times[n - 1]);
    }
  }

  /** Crash consistency: whatever part of the writes reached the table, the table is the mirror of
      the registry between two of its operations, never a mixture. */
  lemma {:induction false} CrashSeesAPastState(t0: Table, rs: seq<RegState>, ops: seq<RegOp>, times: seq<nat>, n: nat, k: nat)
    returns (i: nat)
    requires Run(rs, ops, times) && RegInv(rs[0]) && Mirrored(t0, rs[0]) && n < |rs|
    requires |rs[0].log| <= k <= |rs[n].log|
    ensures i <= n && RegInv(rs[i]) && ApplyOps(t0, rs[n].log[..k]) == Mirror(rs[i])
    ensures rs[i].log == rs[n].log[..k]
  {
    RunKeeps(t0, rs, ops, times, n);
    if k == |rs[n].log| {
      i := n;
      assert rs[n].log[..k] == rs[n].log;
    } else {
      assert n > 0;
      RunKeeps(t0, rs, ops, times, n - 1);
      assert OpStep(rs[n - 1], ops[n - 1], times[n - 1], rs[n]);
      OpKeeps(t0, rs[n - 1], ops[n - 1], times[n - 1]);
      i := CrashSeesAPastState(t0, rs, ops, times, n - 1, k);
      assert rs[n].log[..k] == rs[n - 1].log[..k];
    }
  }

  ghost predicate HasBeen(rs: seq<RegState>, n: nat, id: nat, state: SessionState)
    requires n < |rs|
  {
    exists m: nat :: m < n && id in rs[m].sessions && rs[m].sessions[id].state == state
  }

  /** Over every run of operations from the empty registry, a suspended session was active before. */
  lemma {:induction false} SuspendedWasActive(rs: seq<RegState>, ops: seq<RegOp>, times: seq<nat>, n: nat, id: nat)
    requires Run(rs, ops, times) && n < |rs| && rs[0].sessions == map[]
    requires id in rs[n].sessions && rs[n].sessions[id].state.Suspended?
    ensures HasBeen(rs, n, id, Active)
  {
    assert n > 0;
    assert OpStep(rs[n - 1], ops[n - 1], times[n - 1], rs[n]);
    assert id in rs[n - 1].sessions;
    if rs[n - 1].sessions[id].state.Suspended? {
      SuspendedWasActive(rs, ops, times, n - 1, id);
    }
  }

  /** A destroyed session stays so, until it is dropped; its id is not issued again. */
  lemma {:induction false} DestroyedIsFinal(rs: seq<RegState>, ops: seq<RegOp>, times: seq<nat>, m: nat, n: nat, id: nat)
    requires Run(rs, ops, times) && m <= n < |rs| && RegInv(rs[m])
    requires id in rs[m].sessions && rs[m].sessions[id].state.Destroyed?
    ensures id < rs[n].nextId && (id in rs[n].sessions ==> rs[n].sessions[id].state.Destroyed?)
  {
    if m == n {
      assert SessionOk(rs[m], id);
    } else {
      DestroyedIsFinal(rs, ops, times, m, n - 1, id);
      assert OpStep(rs[n - 1], ops[n - 1], times[n - 1], rs[n]);
    }
  }

  /** No session is ever in creation again. */
  lemma {:induction false} CreatedOnce(rs: seq<RegState>, ops: seq<RegOp>, times: seq<nat>, m: nat, n: nat, id: nat)
    requires Run(rs, ops, times) && m <= n < |rs| && RegInv(rs[m])
    requires id in rs[m].sessions && !rs[m].sessions[id].state.Creating?
    ensures id < rs[n].nextId && (id in rs[n].sessions ==> !rs[n].sessions[id].state.Creating?)
  {
    if m == n {
      assert SessionOk(rs[m], id);
    } else {
      CreatedOnce(rs, ops, times, m, n - 1, id);
      assert OpStep(rs[n - 1], ops[n - 1], times[n - 1], rs[n]);
    }
  }

  // ----- restoring

  /** A row as it is read back. */
  datatype PersistedSession = PersistedSession(
    id: nat,
    token: string,
    state: SessionState,
    user: Option<string>,
    homeServer: string,
    createdAt: nat,
    suspendTimeout: nat)
  {
    predicate Resumable() { state.Active? || state.Suspended? }
  }

  predicate Readable(t: Table, id: nat) {
    id in t && ParseState(t[id].state).Some?
  }

  function RowOf(t: Table, id: nat): PersistedSession
    requires Readable(t, id)
  {
    var r := t[id];
    PersistedSession(id, r.token, ParseState(r.state).value, r.user, r.homeServer, r.createdAt, r.suspendTimeout)
  }

  /** `rows` is the table read back: every readable row once, in some order. */
  ghost predicate Loads(rows: seq<PersistedSession>, t: Table) {
    && (forall i :: 0 <= i < |rows| ==> Readable(t, rows[i].id) && rows[i] == RowOf(t, rows[i].id))
    && (forall id :: Readable(t, id) ==> exists i :: 0 <= i < |rows| && rows[i].id == id)
    && (forall i, j :: 0 <= i < j < |rows| ==> rows[i].id != rows[j].id)
  }

  function RestoredSession(row: PersistedSession, now: nat): Session {
    Session(row.id, row.token, Suspended, Min(row.createdAt, now), Some(now), row.suspendTimeout, row.user, row.homeServer)
  }

  function RestoreWrite(row: PersistedSession, now: nat): Op {
    if row.Resumable() then Save(row.id, RecordOf(RestoredSession(row, now))) else Delete(row.id)
  }

  function RestoreRow(r: RegState, row: PersistedSession, now: nat): RegState {
    var r1 := r.(nextId := Max(r.nextId, row.id + 1), log := r.log + [RestoreWrite(row, now)]);
    if row.Resumable() then
      r1.(tokenIndex := r1.tokenIndex[row.token := row.id], sessions := r1.sessions[row.id := RestoredSession(row, now)])
    else r1
  }

  function RestoreRows(r: RegState, rows: seq<PersistedSession>, now: nat): RegState {
    if rows == [] then r else RestoreRow(RestoreRows(r, rows[..|rows| - 1], now), rows[|rows| - 1], now)
  }

  function CountResumable(rows: seq<PersistedSession>): nat {
    if rows == [] then 0
    else CountResumable(rows[..|rows| - 1]) + if rows[|rows| - 1].Resumable() then 1 else 0
  }

  method RestorePersisted(registry: SessionRegistry, rows: seq<PersistedSession>, now: nat) returns (restored: nat)
    modifies registry
    ensures registry.State() == RestoreRows(old(registry.State()), rows, now)
    ensures restored == CountResumable(rows)
  {
    restored := 0;
    var i := 0;
    while i < |rows|
      invariant 0 <= i <= |rows|
      invariant registry.State() == RestoreRows(old(registry.State()), rows[..i], now)
      invariant restored == CountResumable(rows[..i])
    {
      assert rows[..i + 1][..i] == rows[..i];
      var back := RestoreOne(registry, rows[i], now);
      if back {
        restored := restored + 1;
      }
      i := i + 1;
    }
    assert rows[..i] == rows;
  }

  /** The body of the loop over the loaded rows. */
  method RestoreOne(registry: SessionRegistry, row: PersistedSession, now: nat) returns (back: bool)
    modifies registry
    ensures registry.State() == RestoreRow(old(registry.State()), row, now)
    ensures back == row.Resumable()
  {
    registry.nextId := Max(registry.nextId, row.id + 1);
    back := row.state == Active || row.state == Suspended;
    if back {
      var session := RestoredSession(row, now);
      registry.store := registry.store + [Save(session.id, RecordOf(session))];
      registry.tokenIndex := registry.tokenIndex[session.token := row.id];
      registry.sessions := registry.sessions[row.id := session];
    } else {
      registry.store := registry.store + [Delete(row.id)];
    }
  }

  /** The row comes back as a session after a restart. */
  predicate Returns(t: Table, id: nat) {
    Readable(t, id) && RowOf(t, id).Resumable()
  }

  /** The sessions a table stands for after a restart. */
  ghost function SessionsOf(t: Table, now: nat): map<nat, Session> {
    map id | id in t && Returns(t, id) :: RestoredSession(RowOf(t, id), now)
  }

  /** No two rows that would come back share a token. */
  ghost predicate TokensDistinct(t: Table) {
    forall a, b :: Returns(t, a) && Returns(t, b) && t[a].token == t[b].token ==> a == b
  }

  ghost predicate AllReadable(t: Table) {
    forall id :: id in t ==> Readable(t, id)
  }

  /** Row `i` is back, under its id and its token. */
  ghost predicate RowBack(rows: seq<PersistedSession>, i: int, r: RegState, now: nat)
    requires 0 <= i < |rows|
  {
    var row := rows[i];
    && row.id < r.nextId
    && (row.Resumable() ==>
          && row.id in r.sessions && r.sessions[row.id] == RestoredSession(row, now)
          && row.token in r.tokenIndex && r.tokenIndex[row.token] == row.id)
  }

  ghost predicate CameFrom(rows: seq<PersistedSession>, n: int, id: nat)
    requires n <= |rows|
  {
    exists i :: 0 <= i < n && rows[i].id == id && rows[i].Resumable()
  }

  /** What has been rebuilt once the first `n` rows were read. */
  ghost predicate RestoredSoFar(rows: seq<PersistedSession>, n: nat, r: RegState, now: nat)
    requires n <= |rows|
  {
    && (forall i :: 0 <= i < n ==> RowBack(rows, i, r, now))
    && (forall id :: id in r.sessions ==> CameFrom(rows, n, id))
    && (forall token :: token in r.tokenIndex ==> TokenOk(r, token))
  }

  lemma {:induction false} RestoreRowsSoFar(t: Table, rows: seq<PersistedSession>, n: nat, serverId: string, now: nat)
    requires Loads(rows, t) && TokensDistinct(t) && n <= |rows|
    ensures RestoredSoFar(rows, n, RestoreRows(Empty(serverId), rows[..n], now), now)
  {
    if n > 0 {
      RestoreRowsSoFar(t, rows, n - 1, serverId, now);
      assert rows[..n][..n - 1] == rows[..n - 1];
      RestoreRowSoFar(t, rows, n, RestoreRows(Empty(serverId), rows[..n - 1], now), now);
    }
  }

  /** Two rows that come back differ in their ids and their tokens. */
  lemma RowsApart(t: Table, rows: seq<PersistedSession>, i: nat, j: nat)
    requires Loads(rows, t) && TokensDistinct(t) && i < j < |rows| && rows[i].Resumable() && rows[j].Resumable()
    ensures rows[i].id != rows[j].id && rows[i].token != rows[j].token
  {
    assert Returns(t, rows[i].id) && Returns(t, rows[j].id);
  }

  lemma EarlierRowBack(t: Table, rows: seq<PersistedSession>, i: nat, n: nat, r: RegState, now: nat)
    requires Loads(rows, t) && TokensDistinct(t) && i < n < |rows| && RowBack(rows, i, r, now)
    ensures RowBack(rows, i, RestoreRow(r, rows[n], now), now)
  {
    if rows[i].Resumable() && rows[n].Resumable() {
      RowsApart(t, rows, i, n);
    }
  }

  lemma RowsStayBack(t: Table, rows: seq<PersistedSession>, n: nat, r: RegState, r': RegState, now: nat)
    requires Loads(rows, t) && TokensDistinct(t) && 0 < n <= |rows| && r' == RestoreRow(r, rows[n - 1], now)
    requires forall i :: 0 <= i < n - 1 ==> RowBack(rows, i, r, now)
    ensures forall i :: 0 <= i < n ==> RowBack(rows, i, r', now)
  {
    forall i | 0 <= i < n ensures RowBack(rows, i, r', now) {
      if i < n - 1 { EarlierRowBack(t, rows, i, n - 1, r, now); }
    }
  }

  lemma RestoreRowSoFar(t: Table, rows: seq<PersistedSession>, n: nat, r: RegState, now: nat)
    requires Loads(rows, t) && TokensDistinct(t) && 0 < n <= |rows|
    requires RestoredSoFar(rows, n - 1, r, now)
    ensures RestoredSoFar(rows, n, RestoreRow(r, rows[n - 1], now), now)
  {
    var row := rows[n - 1];
    var r' := RestoreRow(r, row, now);
    RowsStayBack(t, rows, n, r, r', now);
    forall id | id in r'.sessions ensures CameFrom(rows, n, id) {
      assert id in r.sessions ==> CameFrom(rows, n - 1, id);
      assert rows[n - 1].id == row.id;
    }
    forall token | token in r'.tokenIndex ensures TokenOk(r', token) {
      TokensStayOk(t, rows, n, r, now, token);
    }
  }

  lemma TokensStayOk(t: Table, rows: seq<PersistedSession>, n: nat, r: RegState, now: nat, token: string)
    requires Loads(rows, t) && 0 < n <= |rows| && RestoredSoFar(rows, n - 1, r, now)
    requires token in RestoreRow(r, rows[n - 1], now).tokenIndex
    ensures TokenOk(RestoreRow(r, rows[n - 1], now), token)
  {
    var row := rows[n - 1];
    if token in r.tokenIndex && !(row.Resumable() && token == row.token) {
      assert TokenOk(r, token);
      EarlierIdApart(t, rows, n - 1, r.tokenIndex[token]);
    }
  }

  lemma EarlierIdApart(t: Table, rows: seq<PersistedSession>, n: nat, id: nat)
    requires Loads(rows, t) && n < |rows| && CameFrom(rows, n, id)
    ensures id != rows[n].id
  {
  }

  lemma RowIndex(t: Table, rows: seq<PersistedSession>, id: nat) returns (i: nat)
    requires Loads(rows, t) && Readable(t, id)
    ensures i < |rows| && rows[i] == RowOf(t, id)
  {
    i :| 0 <= i < |rows| && rows[i].id == id;
  }

  lemma RowComesBack(t: Table, rows: seq<PersistedSession>, r: RegState, now: nat, id: nat)
    requires Loads(rows, t) && RestoredSoFar(rows, |rows|, r, now) && Readable(t, id)
    ensures id < r.nextId
    ensures Returns(t, id) ==> id in r.sessions && r.sessions[id] == RestoredSession(RowOf(t, id), now)
  {
    var i := RowIndex(t, rows, id);
    assert RowBack(rows, i, r, now);
  }

  lemma SessionCameBack(t: Table, rows: seq<PersistedSession>, r: RegState, now: nat, id: nat)
    requires Loads(rows, t) && RestoredSoFar(rows, |rows|, r, now) && id in r.sessions
    ensures Returns(t, id) && SessionOk(r, id)
  {
    assert CameFrom(rows, |rows|, id);
    var i :| 0 <= i < |rows| && rows[i].id == id && rows[i].Resumable();
    assert RowBack(rows, i, r, now);
  }

  lemma RestoredIs(t: Table, rows: seq<PersistedSession>, r: RegState, now: nat)
    requires Loads(rows, t) && RestoredSoFar(rows, |rows|, r, now)
    ensures r.sessions == SessionsOf(t, now) && RegInv(r)
    ensures forall id: nat :: Readable(t, id) ==> id < r.nextId
  {
    forall id: nat | Readable(t, id)
      ensures id < r.nextId && (Returns(t, id) ==> id in r.sessions && r.sessions[id] == RestoredSession(RowOf(t, id), now))
    {
      RowComesBack(t, rows, r, now, id);
    }
    forall id | id in r.sessions ensures Returns(t, id) && SessionOk(r, id) {
      SessionCameBack(t, rows, r, now, id);
    }
  }

  /** One above the largest id that can be read from the table, and at least 1. */
  ghost predicate JustAbove(t: Table, nextId: nat) {
    && nextId >= 1
    && (forall id: nat :: Readable(t, id) ==> id < nextId)
    && (nextId == 1 || Readable(t, nextId - 1))
  }

  lemma {:induction false} NextIdFromRow(rows: seq<PersistedSession>, n: nat, serverId: string, now: nat)
    requires n <= |rows|
    ensures var next := RestoreRows(Empty(serverId), rows[..n], now).nextId;
            next == 1 || (next > 1 && exists i :: 0 <= i < n && rows[i].id == next - 1)
  {
    if n > 0 {
      NextIdFromRow(rows, n - 1, serverId, now);
      assert rows[..n][..n - 1] == rows[..n - 1];
      assert rows[n - 1].id == rows[..n][n - 1].id;
    }
  }

  /** Restart brings back every row that was active or suspended, suspended, and nothing else; the
      registry is consistent again, and the next id it issues is just above the rows it read. */
  lemma RestoreExact(t: Table, rows: seq<PersistedSession>, serverId: string, now: nat)
    requires Loads(rows, t) && TokensDistinct(t)
    ensures var r := RestoreRows(Empty(serverId), rows, now);
            r.sessions == SessionsOf(t, now) && RegInv(r) && JustAbove(t, r.nextId)
  {
    RestoredAll(t, rows, serverId, now);
    RestoredNextId(rows, serverId, now);
  }

  lemma RestoredAll(t: Table, rows: seq<PersistedSession>, serverId: string, now: nat)
    requires Loads(rows, t) && TokensDistinct(t)
    ensures var r := RestoreRows(Empty(serverId), rows, now);
            r.sessions == SessionsOf(t, now) && RegInv(r) && forall id: nat :: Readable(t, id) ==> id < r.nextId
  {
    RestoreRowsSoFar(t, rows, |rows|, serverId, now);
    assert rows[..|rows|] == rows;
    RestoredIs(t, rows, RestoreRows(Empty(serverId), rows, now), now);
  }

  lemma RestoredNextId(rows: seq<PersistedSession>, serverId: string, now: nat)
    ensures var next := RestoreRows(Empty(serverId), rows, now).nextId;
            next == 1 || (next > 1 && exists i :: 0 <= i < |rows| && rows[i].id == next - 1)
  {
    NextIdFromRow(rows, |rows|, serverId, now);
    assert rows[..|rows|] == rows;
  }

  /** An id can be issued again after a restart exactly if no readable row has it or a larger one:
      rows that were deleted leave no trace. */
  lemma IssuableIff(t: Table, rows: seq<PersistedSession>, serverId: string, now: nat, id: nat)
    requires Loads(rows, t) && TokensDistinct(t) && id >= 1
    ensures RestoreRows(Empty(serverId), rows, now).nextId <= id <==> forall k: nat :: Readable(t, k) ==> k < id
  {
    RestoreExact(t, rows, serverId, now);
  }

  /** Row `i` of the table as the restart leaves it. */
  ghost predicate RowRewritten(rows: seq<PersistedSession>, i: int, t': Table, now: nat)
    requires 0 <= i < |rows|
  {
    if rows[i].Resumable() then rows[i].id in t' && t'[rows[i].id] == RecordOf(RestoredSession(rows[i], now))
    else rows[i].id !in t'
  }

  ghost predicate Untouched(t: Table, t': Table, id: nat) {
    (id in t' <==> id in t) && (id in t ==> t'[id] == t[id])
  }

  ghost predicate Among(rows: seq<PersistedSession>, n: int, id: nat)
    requires n <= |rows|
  {
    exists i :: 0 <= i < n && rows[i].id == id
  }

  /** The table once the writes of the first `n` restored rows have been applied. */
  ghost predicate RewrittenSoFar(t: Table, rows: seq<PersistedSession>, n: nat, t': Table, now: nat)
    requires n <= |rows|
  {
    && (forall i :: 0 <= i < n ==> RowRewritten(rows, i, t', now))
    && (forall id: nat :: Among(rows, n, id) || Untouched(t, t', id))
  }

  lemma {:induction false} RestoreLog(rows: seq<PersistedSession>, n: nat, serverId: string, now: nat)
    requires n <= |rows|
    ensures var log := RestoreRows(Empty(serverId), rows[..n], now).log;
            |log| == n && forall i :: 0 <= i < n ==> log[i] == RestoreWrite(rows[i], now)
  {
    if n > 0 {
      RestoreLog(rows, n - 1, serverId, now);
      assert rows[..n][..n - 1] == rows[..n - 1];
    }
  }

  lemma {:induction false} RestoreRewrites(t: Table, rows: seq<PersistedSession>, n: nat, log: seq<Op>, now: nat)
    requires Loads(rows, t) && n <= |rows| && |log| == n && forall i :: 0 <= i < n ==> log[i] == RestoreWrite(rows[i], now)
    ensures RewrittenSoFar(t, rows, n, ApplyOps(t, log), now)
  {
    if n > 0 {
      RestoreRewrites(t, rows, n - 1, log[..n - 1], now);
      RestoreRewriteStep(t, rows, n, ApplyOps(t, log[..n - 1]), now);
    }
  }

  lemma RestoreRewriteStep(t: Table, rows: seq<PersistedSession>, n: nat, t1: Table, now: nat)
    requires Loads(rows, t) && 0 < n <= |rows| && RewrittenSoFar(t, rows, n - 1, t1, now)
    ensures RewrittenSoFar(t, rows, n, ApplyOp(t1, RestoreWrite(rows[n - 1], now)), now)
  {
    var t' := ApplyOp(t1, RestoreWrite(rows[n - 1], now));
    forall i | 0 <= i < n ensures RowRewritten(rows, i, t', now) {
      if i < n - 1 {
        assert RowRewritten(rows, i, t1, now);
        assert rows[i].id != rows[n - 1].id;
      }
    }
    forall id: nat ensures Among(rows, n, id) || Untouched(t, t', id) {
      assert Among(rows, n - 1, id) || Untouched(t, t1, id);
      assert rows[n - 1].id == id ==> Among(rows, n, id);
    }
  }

  /** What makes a session the same one after a restart: everything but its timestamps. */
  function Identity(s: Session): Session {
    s.(createdAt := 0, suspendedAt := None)
  }

  ghost predicate SameIdentities(a: map<nat, Session>, b: map<nat, Session>) {
    a.Keys == b.Keys && forall id :: id in a ==> Identity(a[id]) == Identity(b[id])
  }

  /** A crash in the middle of a restart loses nothing: whatever part of the restart's own writes
      reached the table, the next restart rebuilds the same sessions. */
  lemma CrashDuringRestart(t: Table, rows: seq<PersistedSession>, n: nat, serverId: string, now: nat, later: nat)
    requires Loads(rows, t) && n <= |rows|
    ensures var log := RestoreRows(Empty(serverId), rows, now).log;
            |log| == |rows| && SameIdentities(SessionsOf(t, later), SessionsOf(ApplyOps(t, log[..n]), later))
  {
    var log := RestoreRows(Empty(serverId), rows, now).log;
    RestoreLog(rows, |rows|, serverId, now);
    assert rows[..|rows|] == rows;
    var t' := ApplyOps(t, log[..n]);
    RestoreRewrites(t, rows, n, log[..n], now);
    forall id
      ensures id in SessionsOf(t, later) <==> id in SessionsOf(t', later)
      ensures id in SessionsOf(t, later) ==> Identity(SessionsOf(t, later)[id]) == Identity(SessionsOf(t', later)[id])
    {
      RewrittenRow(t, rows, n, t', now, id);
    }
  }

  lemma RewrittenRow(t: Table, rows: seq<PersistedSession>, n: nat, t': Table, now: nat, id: nat)
    requires Loads(rows, t) && n <= |rows| && RewrittenSoFar(t, rows, n, t', now)
    ensures Returns(t', id) <==> Returns(t, id)
    ensures Returns(t, id) ==>
              && t'[id].token == t[id].token && t'[id].user == t[id].user
              && t'[id].homeServer == t[id].homeServer && t'[id].suspendTimeout == t[id].suspendTimeout
  {
    StateRoundTrip(Suspended);
    if Among(rows, n, id) {
      var i :| 0 <= i < n && rows[i].id == id;
      assert rows[i] == RowOf(t, id);
      assert RowRewritten(rows, i, t', now);
    } else {
      assert Untouched(t, t', id);
    }
  }

  /** The table holds exactly the rows of the sessions. */
  ghost predicate Tabulates(t: Table, sessions: map<nat, Session>) {
    forall id: nat :: (id in t <==> id in sessions) && (id in t ==> t[id] == RecordOf(sessions[id]))
  }

  lemma RestoredTable(t: Table, rows: seq<PersistedSession>, serverId: string, now: nat)
    requires Loads(rows, t) && AllReadable(t)
    ensures Tabulates(ApplyOps(t, RestoreRows(Empty(serverId), rows, now).log), SessionsOf(t, now))
  {
    var log := RestoreRows(Empty(serverId), rows, now).log;
    RestoreLog(rows, |rows|, serverId, now);
    assert rows[..|rows|] == rows;
    RestoreRewrites(t, rows, |rows|, log, now);
    forall id: nat
      ensures (id in ApplyOps(t, log) <==> id in SessionsOf(t, now))
           && (id in ApplyOps(t, log) ==> ApplyOps(t, log)[id] == RecordOf(SessionsOf(t, now)[id]))
    {
      FullyRewrittenRow(t, rows, ApplyOps(t, log), now, id);
    }
  }

  /** After a restart the table mirrors the registry again, exactly if it has no unreadable rows: those
      stay where they are. */
  lemma RestoreMirrorsIff(t: Table, rows: seq<PersistedSession>, serverId: string, now: nat)
    requires Loads(rows, t) && TokensDistinct(t)
    ensures Mirrored(t, RestoreRows(Empty(serverId), rows, now)) <==> AllReadable(t)
  {
    var r := RestoreRows(Empty(serverId), rows, now);
    RestoreExact(t, rows, serverId, now);
    if AllReadable(t) {
      RestoredTable(t, rows, serverId, now);
      MirrorIs(r, SessionsOf(t, now), ApplyOps(t, r.log));
    } else {
      var id :| id in t && !Readable(t, id);
      RestoreLog(rows, |rows|, serverId, now);
      assert rows[..|rows|] == rows;
      RestoreRewrites(t, rows, |rows|, r.log, now);
      UnreadableStays(t, rows, ApplyOps(t, r.log), now, id);
    }
  }

  lemma UnreadableStays(t: Table, rows: seq<PersistedSession>, t': Table, now: nat, id: nat)
    requires Loads(rows, t) && RewrittenSoFar(t, rows, |rows|, t', now) && id in t && !Readable(t, id)
    ensures id in t' && t'[id] == t[id]
  {
    assert Among(rows, |rows|, id) || Untouched(t, t', id);
  }

  lemma FullyRewrittenRow(t: Table, rows: seq<PersistedSession>, t': Table, now: nat, id: nat)
    requires Loads(rows, t) && AllReadable(t) && RewrittenSoFar(t, rows, |rows|, t', now)
    ensures id in t' <==> id in SessionsOf(t, now)
    ensures id in t' ==> t'[id] == RecordOf(SessionsOf(t, now)[id])
  {
    if id in t {
      assert Readable(t, id);
      var i := RowIndex(t, rows, id);
      assert RowRewritten(rows, i, t', now);
    } else {
      assert Among(rows, |rows|, id) || Untouched(t, t', id);
    }
  }

  lemma MirrorIs(r: RegState, sessions: map<nat, Session>, t': Table)
    requires r.sessions == sessions && forall id :: id in sessions ==> sessions[id].Live()
    requires Tabulates(t', sessions)
    ensures t' == Mirror(r)
  {
  }

  // ----- crash and restart together

  /** The sessions of a registry that survive a restart. */
  ghost function Survivors(r: RegState): map<nat, Session> {
    map id | id in r.sessions && r.sessions[id].Resumable() :: r.sessions[id].(state := Suspended)
  }

  lemma MirrorRestores(r: RegState, now: nat)
    requires RegInv(r)
    ensures TokensDistinct(Mirror(r)) && AllReadable(Mirror(r))
    ensures SameIdentities(SessionsOf(Mirror(r), now), Survivors(r))
    ensures forall id :: id in Survivors(r) ==> SessionsOf(Mirror(r), now)[id].createdAt == Min(r.sessions[id].createdAt, now)
  {
    var t := Mirror(r);
    forall id | id in t ensures Readable(t, id) && RowOf(t, id).state == r.sessions[id].state {
      StateRoundTrip(r.sessions[id].state);
    }
    forall a, b | a in t && b in t && t[a].token == t[b].token ensures a == b {
      LiveTokensUnique(r, a, b);
    }
    forall id | id in Survivors(r) ensures id in t && id in SessionsOf(t, now) && Identity(SessionsOf(t, now)[id]) == Identity(Survivors(r)[id]) {
      assert SessionOk(r, id);
    }
    assert SessionsOf(t, now).Keys == Survivors(r).Keys;
  }

  /** A crash at any point of any run, with any part of the writes durable, followed by a restart:
      the new registry is consistent and mirrored, and its sessions are exactly those that were
      active or suspended at one moment of the run, suspended, with the same id, token, user,
      home server and timeout. */
  lemma CrashThenRestart(t0: Table, rs: seq<RegState>, ops: seq<RegOp>, times: seq<nat>, n: nat, k: nat,
                          rows: seq<PersistedSession>, serverId: string, now: nat)
    returns (i: nat)
    requires Run(rs, ops, times) && RegInv(rs[0]) && Mirrored(t0, rs[0]) && n < |rs|
    requires |rs[0].log| <= k <= |rs[n].log| && Loads(rows, ApplyOps(t0, rs[n].log[..k]))
    ensures i <= n && RegInv(rs[i]) && rs[i].log == rs[n].log[..k] && ApplyOps(t0, rs[n].log[..k]) == Mirror(rs[i])
    ensures var r := RestoreRows(Empty(serverId), rows, now);
            && RegInv(r) && Mirrored(ApplyOps(t0, rs[n].log[..k]), r)
            && SameIdentities(r.sessions, Survivors(rs[i]))
            && (forall id :: id in r.sessions ==> r.sessions[id].createdAt == Min(rs[i].sessions[id].createdAt, now))
            && forall id :: id in rs[i].sessions && rs[i].sessions[id].Live() ==> id < r.nextId
  {
    i := CrashSeesAPastState(t0, rs, ops, times, n, k);
    var t := ApplyOps(t0, rs[n].log[..k]);
    MirrorRestores(rs[i], now);
    RestoreExact(t, rows, serverId, now);
    RestoreMirrorsIff(t, rows, serverId, now);
    var r := RestoreRows(Empty(serverId), rows, now);
    forall id | id in rs[i].sessions && rs[i].sessions[id].Live() ensures id < r.nextId {
      assert Readable(t, id);
    }
  }

  /** A user or a timeout set on a session is still set after a crash and a restart. */
  lemma SettingsSurvive(r: RegState, id: nat, user: string, timeout: nat, now: nat)
    requires RegInv(r) && id in r.sessions && r.sessions[id].Resumable()
    ensures var u := WithUser(r, id, user); var t := WithTimeout(r, id, timeout);
            && id in SessionsOf(Mirror(u), now) && SessionsOf(Mirror(u), now)[id].user == Some(user)
            && SessionsOf(Mirror(u), now)[id].suspendTimeout == r.sessions[id].suspendTimeout
            && id in SessionsOf(Mirror(t), now) && SessionsOf(Mirror(t), now)[id].suspendTimeout == timeout
            && SessionsOf(Mirror(t), now)[id].user == r.sessions[id].user
  {
    StateRoundTrip(r.sessions[id].state);
  }

  /** The number that the restart reports is that of the sessions it restored. */
  lemma RestoredCount(t: Table, rows: seq<PersistedSession>, serverId: string, now: nat)
    requires Loads(rows, t) && TokensDistinct(t)
    ensures CountResumable(rows) == |RestoreRows(Empty(serverId), rows, now).sessions|
  {
    RestoredSizes(rows, |rows|, serverId, now);
    assert rows[..|rows|] == rows;
  }

  lemma {:induction false} RestoredSizes(rows: seq<PersistedSession>, n: nat, serverId: string, now: nat)
    requires n <= |rows| && forall i, j :: 0 <= i < j < |rows| ==> rows[i].id != rows[j].id
    ensures var sessions := RestoreRows(Empty(serverId), rows[..n], now).sessions;
            && |sessions| == CountResumable(rows[..n])
            && forall id :: id in sessions ==> exists i :: 0 <= i < n && rows[i].id == id
  {
    if n > 0 {
      RestoredSizes(rows, n - 1, serverId, now);
      assert rows[..n][..n - 1] == rows[..n - 1] && rows[..n][n - 1] == rows[n - 1];
      var before := RestoreRows(Empty(serverId), rows[..n - 1], now).sessions;
      assert rows[n - 1].id !in before;
    }
  }

  // ----- restarting twice

  /** The table as a restart leaves it. */
  ghost function TableAfter(t: Table, rows: seq<PersistedSession>, serverId: string, now: nat): Table {
    ApplyOps(t, RestoreRows(Empty(serverId), rows, now).log)
  }

  function Untimed(r: Record): Record {
    r.(createdAt := 0, suspendedAt := None)
  }

  ghost predicate SameRows(a: Table, b: Table) {
    a.Keys == b.Keys && forall id :: id in a ==> Untimed(a[id]) == Untimed(b[id])
  }

  lemma TableAfterIs(t: Table, rows: seq<PersistedSession>, serverId: string, now: nat)
    requires Loads(rows, t)
    ensures RewrittenSoFar(t, rows, |rows|, TableAfter(t, rows, serverId, now), now)
  {
    RestoreLog(rows, |rows|, serverId, now);
    assert rows[..|rows|] == rows;
    RestoreRewrites(t, rows, |rows|, RestoreRows(Empty(serverId), rows, now).log, now);
  }

  /** After a restart every readable row is one that comes back. */
  lemma ReadableReturns(t: Table, rows: seq<PersistedSession>, t': Table, now: nat, id: nat)
    requires Loads(rows, t) && RewrittenSoFar(t, rows, |rows|, t', now)
    ensures (Readable(t', id) <==> Returns(t, id)) && (Returns(t', id) <==> Returns(t, id))
  {
    StateRoundTrip(Suspended);
    if Readable(t, id) {
      var i := RowIndex(t, rows, id);
      assert RowRewritten(rows, i, t', now);
    } else {
      assert Among(rows, |rows|, id) || Untouched(t, t', id);
    }
  }

  lemma TokensStayDistinct(t: Table, rows: seq<PersistedSession>, t': Table, now: nat)
    requires Loads(rows, t) && TokensDistinct(t) && RewrittenSoFar(t, rows, |rows|, t', now)
    ensures TokensDistinct(t')
  {
    forall a, b | Returns(t', a) && Returns(t', b) && t'[a].token == t'[b].token ensures a == b {
      RewrittenRow(t, rows, |rows|, t', now, a);
      RewrittenRow(t, rows, |rows|, t', now, b);
    }
  }

  lemma RewrittenAgain(t: Table, rows: seq<PersistedSession>, t': Table, now: nat, id: nat)
    requires Loads(rows, t) && RewrittenSoFar(t, rows, |rows|, t', now)
    requires (Readable(t, id) ==> Returns(t, id) && t[id].state == StateStr(Suspended))
    ensures (id in t' <==> id in t) && (id in t ==> Untimed(t'[id]) == Untimed(t[id]))
  {
    if Readable(t, id) {
      var i := RowIndex(t, rows, id);
      assert RowRewritten(rows, i, t', now);
    } else {
      assert Among(rows, |rows|, id) || Untouched(t, t', id);
    }
  }

  lemma RewrittenState(t: Table, rows: seq<PersistedSession>, t': Table, now: nat, id: nat)
    requires Loads(rows, t) && RewrittenSoFar(t, rows, |rows|, t', now) && Readable(t', id)
    ensures Returns(t', id) && t'[id].state == StateStr(Suspended)
  {
    ReadableReturns(t, rows, t', now, id);
    var i := RowIndex(t, rows, id);
    assert RowRewritten(rows, i, t', now);
  }

  /** Two consistent registries with the same live sessions have the same index. */
  lemma SameIndex(a: RegState, b: RegState)
    requires RegInv(a) && RegInv(b) && SameIdentities(a.sessions, b.sessions)
    requires forall id :: id in a.sessions ==> a.sessions[id].Live() && b.sessions[id].Live()
    ensures a.tokenIndex == b.tokenIndex
  {
    forall token
      ensures token in a.tokenIndex ==> token in b.tokenIndex && b.tokenIndex[token] == a.tokenIndex[token]
      ensures token in b.tokenIndex ==> token in a.tokenIndex
    {
      if token in a.tokenIndex { IndexedAlso(a, b, token); }
      if token in b.tokenIndex { IndexedAlso(b, a, token); }
    }
  }

  lemma IndexedAlso(a: RegState, b: RegState, token: string)
    requires RegInv(a) && RegInv(b) && SameIdentities(a.sessions, b.sessions) && token in a.tokenIndex
    requires forall id :: id in b.sessions ==> b.sessions[id].Live()
    ensures token in b.tokenIndex && b.tokenIndex[token] == a.tokenIndex[token]
  {
    var id := a.tokenIndex[token];
    IndexedIsLive(a, token);
    assert Identity(a.sessions[id]).token == token && SessionOk(b, id);
  }

  /** The largest readable id belongs to a row that comes back. */
  ghost predicate TopReturns(t: Table) {
    forall id: nat :: Readable(t, id) && id > 0 ==> exists k: nat :: id <= k && Returns(t, k)
  }

  lemma NextIdKeptIff(t: Table, t': Table, next: nat, next': nat)
    requires JustAbove(t, next) && JustAbove(t', next') && forall id: nat :: Readable(t', id) <==> Returns(t, id)
    ensures next' == next <==> TopReturns(t)
  {
    if next' == next && next > 1 {
      assert Readable(t', next' - 1);
    }
    if TopReturns(t) && next > 1 {
      assert Readable(t, next - 1);
      var k: nat :| next - 1 <= k && Returns(t, k);
    }
  }

  /** A second restart right after a first one changes nothing but timestamps: the same sessions, the
      same index, the same rows. It also keeps the next id, exactly unless the largest row that
      the first restart read was one it dropped. */
  lemma SecondRestart(t: Table, rows: seq<PersistedSession>, rows2: seq<PersistedSession>,
                      serverId: string, now: nat, later: nat)
    requires Loads(rows, t) && TokensDistinct(t) && Loads(rows2, TableAfter(t, rows, serverId, now))
    ensures var t' := TableAfter(t, rows, serverId, now);
            var first := RestoreRows(Empty(serverId), rows, now);
            var second := RestoreRows(Empty(serverId), rows2, later);
            && SameIdentities(second.sessions, first.sessions) && second.tokenIndex == first.tokenIndex
            && SameRows(TableAfter(t', rows2, serverId, later), t')
            && (second.nextId == first.nextId <==> TopReturns(t))
  {
    var t' := TableAfter(t, rows, serverId, now);
    var first := RestoreRows(Empty(serverId), rows, now);
    var second := RestoreRows(Empty(serverId), rows2, later);
    RestoredAs(t, rows, serverId, now);
    TokensStayDistinct(t, rows, t', now);
    RestoredAs(t', rows2, serverId, later);
    SecondSessions(t, rows, t', now, later);
    SecondIndex(first, second, t, t', now, later);
    SecondTable(t, rows, t', now, rows2, TableAfter(t', rows2, serverId, later), later);
    SecondNextId(t, rows, t', now, first.nextId, second.nextId);
  }

  lemma RestoredAs(t: Table, rows: seq<PersistedSession>, serverId: string, now: nat)
    requires Loads(rows, t) && TokensDistinct(t)
    ensures var r := RestoreRows(Empty(serverId), rows, now);
            r.sessions == SessionsOf(t, now) && RegInv(r) && JustAbove(t, r.nextId)
    ensures RewrittenSoFar(t, rows, |rows|, TableAfter(t, rows, serverId, now), now)
  {
    RestoreExact(t, rows, serverId, now);
    TableAfterIs(t, rows, serverId, now);
  }

  lemma SecondIndex(first: RegState, second: RegState, t: Table, t': Table, now: nat, later: nat)
    requires RegInv(first) && RegInv(second) && first.sessions == SessionsOf(t, now) && second.sessions == SessionsOf(t', later)
    requires SameIdentities(second.sessions, first.sessions)
    ensures second.tokenIndex == first.tokenIndex
  {
    SameIndex(second, first);
  }

  lemma SecondNextId(t: Table, rows: seq<PersistedSession>, t': Table, now: nat, next: nat, next': nat)
    requires Loads(rows, t) && RewrittenSoFar(t, rows, |rows|, t', now) && JustAbove(t, next) && JustAbove(t', next')
    ensures next' == next <==> TopReturns(t)
  {
    forall id: nat ensures Readable(t', id) <==> Returns(t, id) {
      ReadableReturns(t, rows, t', now, id);
    }
    NextIdKeptIff(t, t', next, next');
  }

  lemma SecondSessions(t: Table, rows: seq<PersistedSession>, t': Table, now: nat, later: nat)
    requires Loads(rows, t) && RewrittenSoFar(t, rows, |rows|, t', now)
    ensures SameIdentities(SessionsOf(t', later), SessionsOf(t, now))
  {
    forall id
      ensures id in SessionsOf(t', later) <==> id in SessionsOf(t, now)
      ensures id in SessionsOf(t, now) ==> Identity(SessionsOf(t', later)[id]) == Identity(SessionsOf(t, now)[id])
    {
      RewrittenRow(t, rows, |rows|, t', now, id);
    }
  }

  lemma SecondTable(t: Table, rows: seq<PersistedSession>, t': Table, now: nat,
                     rows2: seq<PersistedSession>, t'': Table, later: nat)
    requires Loads(rows, t) && RewrittenSoFar(t, rows, |rows|, t', now)
    requires Loads(rows2, t') && RewrittenSoFar(t', rows2, |rows2|, t'', later)
    ensures SameRows(t'', t')
  {
    forall id
      ensures id in t'' <==> id in t'
      ensures id in t' ==> Untimed(t''[id]) == Untimed(t'[id])
    {
      if Readable(t', id) { RewrittenState(t, rows, t', now, id); }
      RewrittenAgain(t', rows2, t'', later, id);
    }
  }

  /** A table whose largest row is dropped: the next id falls from 6 back to 1. */
  lemma NextIdFallsBack(serverId: string)
    ensures var t: Table := map[5 := Record("t", "creating", None, serverId, 0, None, 0)];
            var row := PersistedSession(5, "t", Creating, None, serverId, 0, 0);
            && Loads([row], t) && TableAfter(t, [row], serverId, 0) == map[] && Loads([], map[])
            && RestoreRows(Empty(serverId), [row], 0).nextId == 6 && RestoreRows(Empty(serverId), [], 0).nextId == 1
  {
    var t: Table := map[5 := Record("t", "creating", None, serverId, 0, None, 0)];
    var row := PersistedSession(5, "t", Creating, None, serverId, 0, 0);
    StateRoundTrip(Creating);
    assert RowOf(t, 5) == row && [row][0].id == 5;
    var rows := [row];
    assert rows[..|rows| - 1] == [] && RestoreRows(Empty(serverId), rows[..|rows| - 1], 0) == Empty(serverId);
    assert RestoreRows(Empty(serverId), rows, 0) == RestoreRow(Empty(serverId), row, 0) && !row.Resumable();
    ApplyOpsSnoc(t, [], Delete(5));
    assert [] + [Delete(5)] == [Delete(5)];
  }

  /** An id is fresh only above the rows still stored: after its last session was destroyed, a
      restarted registry issues the same id again. */
  lemma IdsReusedAcrossRestart(token: string, token2: string)
    ensures var r0 := Created(Empty(""), token, 0);
            var r1 := Transitioned(r0, 1, Destroyed, 0);
            && ApplyOps(map[], r1.log) == map[]
            && Loads([], ApplyOps(map[], r1.log))
            && Created(RestoreRows(Empty(""), [], 0), token2, 0).tokenIndex[token2] == 1
  {
    var r0 := Created(Empty(""), token, 0);
    var r1 := Transitioned(r0, 1, Destroyed, 0);
    ApplyOpsSnoc(map[], [], r1.log[0]);
    ApplyOpsSnoc(map[], [r1.log[0]], Delete(1));
    assert r1.log == [r1.log[0]] + [Delete(1)];
  }
}
