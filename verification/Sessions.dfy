/**
 Sessions, their lifecycle, and the durable table they are mirrored to.
 Times are readings of one monotone clock.
 */
module Sessions {
  import opened Wrappers

  datatype SessionState = Creating | Active | Suspended | Destroyed
  {
    predicate CanTransitionTo(next: SessionState) {
      match this
      case Creating => next == Active || next == Destroyed
      case Active => next == Suspended || next == Destroyed
      case Suspended => next == Active || next == Destroyed
      case Destroyed => false
    }
  }

  /** The lifecycle by its laws: every state but the last can be left for it and the last for none,
      nothing is ever created again or moves to itself, activity comes from creation or suspension, and
      suspension from activity only. */
  lemma LifecycleLaws(s: SessionState)
    ensures s.CanTransitionTo(Destroyed) <==> s != Destroyed
    ensures !Destroyed.CanTransitionTo(s) && !s.CanTransitionTo(Creating) && !s.CanTransitionTo(s)
    ensures s.CanTransitionTo(Active) <==> s == Creating || s == Suspended
    ensures s.CanTransitionTo(Suspended) <==> s == Active
  {
  }

  const DEFAULT_TIMEOUT: nat := 24 * 60 * 60

  datatype Session = Session(
    id: nat,
    token: string,
    state: SessionState,
    createdAt: nat,
    suspendedAt: Option<nat>,
    suspendTimeout: nat,
    user: Option<string>,
    homeServer: string)
  {
    predicate Live() { !state.Destroyed? }

    predicate Resumable() { state.Active? || state.Suspended? }

    predicate IsSuspendExpired(now: int) {
      state.Suspended? && suspendedAt.Some? && now - suspendedAt.value >= suspendTimeout
    }

    /** The session after a transition, or nothing if the lifecycle forbids it. */
    function Transitioned(next: SessionState, now: nat): Option<Session> {
      if !state.CanTransitionTo(next) then None
      else Some(this.(state := next, suspendedAt := if next.Suspended? then Some(now) else None))
    }
  }

  function NewSession(id: nat, token: string, homeServer: string, now: nat): Session {
    Session(id, token, Creating, now, None, DEFAULT_TIMEOUT, None, homeServer)
  }

  // ----- the durable table

  /** A stored row. The state is kept as its display string. */
  datatype Record = Record(
    token: string,
    state: string,
    user: Option<string>,
    homeServer: string,
    createdAt: nat,
    suspendedAt: Option<nat>,
    suspendTimeout: nat)

  type Table = map<nat, Record>

  function StateStr(s: SessionState): string {
    match s
    case Creating => "creating"
    case Active => "active"
    case Suspended => "suspended"
    case Destroyed => "destroyed"
  }

  function ParseState(s: string): Option<SessionState> {
    if s == "creating" then Some(Creating)
    else if s == "active" then Some(Active)
    else if s == "suspended" then Some(Suspended)
    else if s == "destroyed" then Some(Destroyed)
    else None
  }

  lemma StateRoundTrip(s: SessionState)
    ensures ParseState(StateStr(s)) == Some(s)
  {
    assert "creating"[0] == 'c' && "active"[0] == 'a' && "suspended"[0] == 's' && "destroyed"[0] == 'd';
  }

  function RecordOf(s: Session): Record {
    Record(s.token, StateStr(s.state), s.user, s.homeServer, s.createdAt, s.suspendedAt, s.suspendTimeout)
  }

  /** Writes queued for the single writer task. */
  datatype Op = Save(id: nat, record: Record) | Delete(id: nat)

  function ApplyOp(t: Table, op: Op): Table {
    match op
    case Save(id, record) => t[id := record]
    case Delete(id) => t - {id}
  }

  function ApplyOps(t: Table, ops: seq<Op>): Table {
    if ops == [] then t else ApplyOp(ApplyOps(t, ops[..|ops| - 1]), ops[|ops| - 1])
  }

  lemma ApplyOpsSnoc(t: Table, ops: seq<Op>, op: Op)
    ensures ApplyOps(t, ops + [op]) == ApplyOp(ApplyOps(t, ops), op)
  {
    assert (ops + [op])[..|ops|] == ops;
  }

  lemma {:induction false} ApplyOpsConcat(t: Table, a: seq<Op>, b: seq<Op>)
    ensures ApplyOps(t, a + b) == ApplyOps(ApplyOps(t, a), b)
  {
    if b == [] {
      assert a + b == a;
    } else {
      ApplyOpsConcat(t, a, b[..|b| - 1]);
      assert (a + b)[..|a + b| - 1] == a + b[..|b| - 1];
    }
  }

  /** The store: an ordered queue in front of the table. */
  class SqliteStore {
    var table: Table
    var queue: seq<Op>

    /** The table once everything queued has been written. */
    function Flushed(): Table
      reads this
    {
      ApplyOps(table, queue)
    }

    constructor (t: Table)
      ensures table == t && queue == []
    {
      table, queue := t, [];
    }

    method Persist(s: Session)
      modifies this
      ensures table == old(table) && queue == old(queue) + [Save(s.id, RecordOf(s))]
      ensures Flushed() == old(Flushed())[s.id := RecordOf(s)]
    {
      ApplyOpsSnoc(table, queue, Save(s.id, RecordOf(s)));
      queue := queue + [Save(s.id, RecordOf(s))];
    }

    method Remove(id: nat)
      modifies this
      ensures table == old(table) && queue == old(queue) + [Delete(id)]
      ensures Flushed() == old(Flushed()) - {id}
    {
      ApplyOpsSnoc(table, queue, Delete(id));
      queue := queue + [Delete(id)];
    }

    /** The writer task applies the oldest queued write. */
    method WriteOne()
      requires queue != []
      modifies this
      ensures table == ApplyOp(old(table), old(queue)[0]) && queue == old(queue)[1..]
      ensures Flushed() == old(Flushed())
    {
      ghost var first := queue[..1];
      ApplyOpsConcat(table, queue[..1], queue[1..]);
      assert queue == queue[..1] + queue[1..];
      assert ApplyOps(table, first) == ApplyOp(table, queue[0]) by {
        assert first[..0] == [] && ApplyOps(table, []) == table;
      }
      table := ApplyOp(table, queue[0]);
      queue := queue[1..];
    }

    method Flush()
      modifies this
      ensures queue == [] && table == old(Flushed())
    {
      while queue != []
        invariant Flushed() == old(Flushed())
        decreases |queue|
      {
        WriteOne();
      }
    }
  }
}
