/**
 The compositor's handling of client connects and disconnects, on top of the session registry
 and behind the queue filled by the network thread.
 */
module Driver {
  import opened Wrappers
  import opened Sessions
  import opened Registry
  import opened NetworkLoop
  import LoadBalance

  /** The cluster's configuration, and what its servers answer while one connect is handled: the peer
      that says it hosts the token, and the loads the peers advertise. */
  datatype Cluster = Cluster(
    home: Option<string>,
    known: set<string>,
    secret: string,
    capacity: nat,
    candidates: seq<LoadBalance.Candidate>)

  datatype Decision =
    | Redirect(serverId: string)
    | Offload(peer: nat)
    | Bind(id: nat, resumed: bool, token: string)

  datatype DriverState = DriverState(
    reg: RegState,
    active: Option<nat>,
    connected: bool,
    /** Published for peers: the tokens hosted here and the number of active sessions. */
    tokens: set<string>,
    load: nat)

  /** What one queued event meets when it is handled. */
  datatype Answer = Answer(generated: string, cluster: Cluster, now: nat)

  function ActiveCount(r: RegState): nat {
    |set id | id in r.sessions && r.sessions[id].state.Active?|
  }

  function Published(d: DriverState): DriverState {
    d.(tokens := d.reg.ResumableTokens(), load := ActiveCount(d.reg))
  }

  // ----- what one event does

  /** The registry after the peers were probed, and where the session lives. */
  function Looked(r: RegState, token: string, cluster: Cluster, now: nat): (RegState, SessionLocation) {
    var location := r.Locate(token, now);
    if location.Unknown? && cluster.home.Some?
    then (NotedRemote(r, token, cluster.home.value, now), Remote(cluster.home.value))
    else (r, location)
  }

  predicate SentAway(location: SessionLocation, cluster: Cluster) {
    location.Remote? && location.serverId in cluster.known
  }

  predicate NeedsActivation(r: RegState, id: nat) {
    id in r.sessions && r.sessions[id].state.Suspended?
  }

  /** The peer a new session would be placed on instead. */
  function Elsewhere(r: RegState, cluster: Cluster): Option<nat> {
    LoadBalance.Picked(LoadBalance.LoadFactor(ActiveCount(r), cluster.capacity), cluster.secret, cluster.candidates)
  }

  function BoundTo(d: DriverState, r: RegState, id: nat): DriverState {
    Published(d.(reg := r, active := Some(id), connected := true))
  }

  function Connected(d: DriverState, token: string, cluster: Cluster, now: nat): (DriverState, Decision) {
    var (r, location) := Looked(d.reg, token, cluster, now);
    if SentAway(location, cluster) then (d.(reg := r), Redirect(location.serverId))
    else match r.IsResumable(token)
      case Some(id) =>
        var r' := if NeedsActivation(r, id) then Transitioned(r, id, Active, now) else r;
        (BoundTo(d, r', id), Bind(id, true, token))
      case None =>
        if Elsewhere(r, cluster).Some? then (d.(reg := r), Offload(Elsewhere(r, cluster).value))
        else
          var r' := Transitioned(Created(r, token, now), r.nextId, Active, now);
          (BoundTo(d, r', r.nextId), Bind(r.nextId, false, token))
  }

  function Disconnected(d: DriverState, now: nat): DriverState {
    var r := if d.active.Some? then Transitioned(d.reg, d.active.value, Suspended, now) else d.reg;
    Published(d.(reg := r, active := None, connected := false))
  }

  function TokenOf(e: NetToCompositor, answer: Answer): string {
    if e.ClientConnected? && e.token.Some? then e.token.value else answer.generated
  }

  function Handled(d: DriverState, e: NetToCompositor, answer: Answer): DriverState {
    match e
    case ClientConnected(_, _) => Connected(d, TokenOf(e, answer), answer.cluster, answer.now).0
    case ClientDisconnected => Disconnected(d, answer.now)
    case RequestKeyframe => d
  }

  function Drained(d: DriverState, events: seq<NetToCompositor>, answers: seq<Answer>): DriverState
    requires |events| == |answers|
  {
    if events == [] then d
    else Handled(Drained(d, events[..|events| - 1], answers[..|events| - 1]), events[|events| - 1], answers[|events| - 1])
  }

  /** The periodic cleanup, given the order in which the expired sessions were met. */
  function Cleaned(d: DriverState, expired: seq<nat>, now: nat): DriverState {
    var r := AllDestroyed(d.reg, expired, now);
    d.(reg := PrunedRemote(if expired != [] then Purged(r) else r, now))
  }

  // ----- the driver

  class CompositorDriver {
    const registry: SessionRegistry
    var activeSession: Option<nat>
    var clientConnected: bool
    var localTokens: set<string>
    var activeSessions: nat

    function State(): DriverState
      reads this, registry
    {
      DriverState(registry.State(), activeSession, clientConnected, localTokens, activeSessions)
    }

    constructor (registry: SessionRegistry)
      ensures this.registry == registry && State() == DriverState(registry.State(), None, false, {}, 0)
    {
      this.registry := registry;
      activeSession, clientConnected, localTokens, activeSessions := None, false, {}, 0;
    }

    method PublishClusterState()
      modifies this
      ensures State() == Published(old(State()))
    {
      activeSessions := |set id | id in registry.sessions && registry.sessions[id].state.Active?|;
      localTokens := set id | id in registry.sessions && registry.sessions[id].Resumable() :: registry.sessions[id].token;
    }

    method DiscoverHome(token: string, cluster: Cluster, now: nat) returns (location: SessionLocation)
      modifies registry
      ensures (State(), location)
           == (old(State()).(reg := Looked(old(registry.State()), token, cluster, now).0),
               Looked(old(registry.State()), token, cluster, now).1)
    {
      location := registry.State().Locate(token, now);
      if location == Unknown && cluster.home.Some? {
        registry.NoteRemoteSession(token, cluster.home.value, now);
        location := Remote(cluster.home.value);
      }
    }

    method OnClientConnected(token: string, cluster: Cluster, now: nat) returns (reply: Decision)
      modifies this, registry
      ensures (State(), reply) == Connected(old(State()), token, cluster, now)
    {
      var location := DiscoverHome(token, cluster, now);
      if location.Remote? && location.serverId in cluster.known {
        return Redirect(location.serverId);
      }
      var found := registry.State().IsResumable(token);
      var id, resumed := 0, found.Some?;
      if found.Some? {
        id := found.value;
        if id in registry.sessions && registry.sessions[id].state == Suspended {
          var _ := registry.Transition(id, Active, now);
        }
      } else {
        var active := |set k | k in registry.sessions && registry.sessions[k].state.Active?|;
        var peer := LoadBalance.PickPeer(LoadBalance.LoadFactor(active, cluster.capacity), cluster.secret, cluster.candidates);
        if peer.Some? {
          return Offload(peer.value);
        }
        id := registry.CreateSession(token, now);
        var _ := registry.Transition(id, Active, now);
      }
      activeSession, clientConnected := Some(id), true;
      PublishClusterState();
      reply := Bind(id, resumed, token);
    }

    method OnClientDisconnected(now: nat)
      modifies this, registry
      ensures State() == Disconnected(old(State()), now)
    {
      if activeSession.Some? {
        var _ := registry.Transition(activeSession.value, Suspended, now);
      }
      activeSession, clientConnected := None, false;
      PublishClusterState();
    }

    method DrainNetworkEvents(rx: seq<NetToCompositor>, answers: seq<Answer>)
      requires |rx| == |answers|
      modifies this, registry
      ensures State() == Drained(old(State()), rx, answers)
    {
      var i := 0;
      while i < |rx|
        invariant 0 <= i <= |rx|
        invariant State() == Drained(old(State()), rx[..i], answers[..i])
      {
        assert rx[..i + 1][..i] == rx[..i] && answers[..i + 1][..i] == answers[..i];
        HandleEvent(rx[i], answers[i]);
        i := i + 1;
      }
      assert rx[..i] == rx && answers[..i] == answers;
    }

    method HandleEvent(e: NetToCompositor, answer: Answer)
      modifies this, registry
      ensures State() == Handled(old(State()), e, answer)
    {
      match e {
        case ClientConnected(_, token) =>
          var _ := OnClientConnected(if token.Some? then token.value else answer.generated, answer.cluster, answer.now);
        case ClientDisconnected =>
          OnClientDisconnected(answer.now);
        case RequestKeyframe =>
      }
    }

    method Cleanup(now: nat) returns (expired: seq<nat>)
      modifies registry
      ensures ListsExpired(old(registry.State()), expired, now)
      ensures State() == Cleaned(old(State()), expired, now)
    {
      expired := registry.CleanupExpired(now);
      if expired != [] {
        registry.PurgeDestroyed();
      }
      registry.PruneRemoteSessions(now);
    }
  }
}
