/**
 When a rendered frame is sent, and when as a keyframe, told from what happened before; and where
 the clients' requests for keyframes go.
 */
module ResyncSends {
  import opened Bytes
  import opened Display
  import opened NetworkLoop
  import opened Resync
  import opened ResyncProofs
  import opened ResyncRuns
  import opened ResyncHeals

  /** Step `d` binds a client. */
  ghost predicate Binds(states: seq<System>, steps: seq<Step>, d: nat)
    requires d < |steps| < |states|
  {
    steps[d] == Drain(true) && states[d].events != [] && states[d].events[0].ClientConnected?
  }

  ghost predicate Leaves(states: seq<System>, steps: seq<Step>, d: nat)
    requires d < |steps| < |states|
  {
    steps[d].Drain? && states[d].events != [] && states[d].events[0].ClientDisconnected?
  }

  ghost predicate BoundSince(states: seq<System>, steps: seq<Step>, n: nat, d: nat)
    requires n <= |steps| < |states|
  {
    d < n && Binds(states, steps, d) && forall m: nat :: d < m < n ==> !Leaves(states, steps, m)
  }

  /** A client has been bound, and none has left since. */
  ghost predicate HasClient(states: seq<System>, steps: seq<Step>, n: nat)
    requires n <= |steps| < |states|
  {
    exists d: nat :: BoundSince(states, steps, n, d)
  }

  ghost predicate OwedSince(states: seq<System>, steps: seq<Step>, n: nat, d: nat)
    requires n <= |steps| < |states|
  {
    && d < n && (Binds(states, steps, d) || ReadsRequest(states, steps, d))
    && |states[n].sent| == |states[d].sent|
  }

  /** A keyframe is owed: a client was bound or a request was read, and nothing has been sent since. */
  ghost predicate KeyframeOwed(states: seq<System>, steps: seq<Step>, n: nat)
    requires n <= |steps| < |states|
  {
    exists d: nat :: OwedSince(states, steps, n, d)
  }

  lemma StepSends(o: Output, s: System, step: Step)
    requires Enabled(o, s, step) && Safe(o, s, step)
    ensures s.sent <= Next(o, s, step).sent
    ensures !step.Render? ==> Next(o, s, step).sent == s.sent
  {
  }

  lemma {:induction false} SentGrows(o: Output, states: seq<System>, steps: seq<Step>, d: nat, n: nat)
    requires ResyncRuns.Run(o, states, steps) && d <= n <= |steps|
    ensures states[d].sent <= states[n].sent
  {
    if d < n {
      SentGrows(o, states, steps, d, n - 1);
      RunKeepsInv(o, states, steps, n - 1);
      StepSends(o, states[n - 1], steps[n - 1]);
    }
  }

  /** What a step does to the compositor's two flags. */
  lemma StepFlags(o: Output, s: System, step: Step)
    requires Enabled(o, s, step) && Safe(o, s, step)
    ensures var e := Next(o, s, step).enc; var drains := step.Drain? && s.events != [];
            && e.clientConnected
               == (if drains && s.events[0].ClientConnected? && step.bind then true
                   else if drains && s.events[0].ClientDisconnected? then false else s.enc.clientConnected)
            && e.forceKeyframe
               == (if drains && (s.events[0].RequestKeyframe? || (s.events[0].ClientConnected? && step.bind)) then true
                   else if Next(o, s, step).sent != s.sent then false else s.enc.forceKeyframe)
  {
  }

  lemma {:induction false} ConnectedIff(o: Output, states: seq<System>, steps: seq<Step>, n: nat)
    requires ResyncRuns.Run(o, states, steps) && n <= |steps|
    ensures states[n].enc.clientConnected <==> HasClient(states, steps, n)
  {
    if n > 0 {
      ConnectedIff(o, states, steps, n - 1);
      RunKeepsInv(o, states, steps, n - 1);
      StepFlags(o, states[n - 1], steps[n - 1]);
      HasClientSnoc(states, steps, n);
    }
  }

  lemma HasClientSnoc(states: seq<System>, steps: seq<Step>, n: nat)
    requires 0 < n <= |steps| < |states|
    ensures HasClient(states, steps, n)
       <==> Binds(states, steps, n - 1) || (HasClient(states, steps, n - 1) && !Leaves(states, steps, n - 1))
  {
    if HasClient(states, steps, n) {
      var d: nat :| BoundSince(states, steps, n, d);
      assert d == n - 1 || BoundSince(states, steps, n - 1, d);
    }
    if Binds(states, steps, n - 1) {
      assert BoundSince(states, steps, n, n - 1);
    } else if HasClient(states, steps, n - 1) && !Leaves(states, steps, n - 1) {
      var d: nat :| BoundSince(states, steps, n - 1, d);
      assert BoundSince(states, steps, n, d);
    }
  }

  lemma OwedSnoc(o: Output, states: seq<System>, steps: seq<Step>, n: nat)
    requires ResyncRuns.Run(o, states, steps) && 0 < n <= |steps|
    ensures KeyframeOwed(states, steps, n)
       <==> (Binds(states, steps, n - 1) || ReadsRequest(states, steps, n - 1) || KeyframeOwed(states, steps, n - 1))
            && states[n].sent == states[n - 1].sent
  {
    SentGrows(o, states, steps, n - 1, n);
    if KeyframeOwed(states, steps, n) {
      var d: nat :| OwedSince(states, steps, n, d);
      SentGrows(o, states, steps, d, n - 1);
      assert d == n - 1 || OwedSince(states, steps, n - 1, d);
    }
    if states[n].sent == states[n - 1].sent {
      if KeyframeOwed(states, steps, n - 1) {
        var d: nat :| OwedSince(states, steps, n - 1, d);
        assert OwedSince(states, steps, n, d);
      }
      if Binds(states, steps, n - 1) || ReadsRequest(states, steps, n - 1) {
        assert OwedSince(states, steps, n, n - 1);
      }
    }
  }

  /** The compositor is set on a keyframe exactly while one is owed. */
  lemma {:induction false} ForcedIffOwed(o: Output, states: seq<System>, steps: seq<Step>, n: nat)
    requires ResyncRuns.Run(o, states, steps) && n <= |steps|
    ensures states[n].enc.forceKeyframe <==> KeyframeOwed(states, steps, n)
  {
    if n > 0 {
      ForcedIffOwed(o, states, steps, n - 1);
      RunKeepsInv(o, states, steps, n - 1);
      StepFlags(o, states[n - 1], steps[n - 1]);
      StepSends(o, states[n - 1], steps[n - 1]);
      OwedSnoc(o, states, steps, n);
    }
  }

  /** A frame of these pixels went out, as a keyframe or not. */
  ghost predicate Sends(o: Output, s: System, s': System, pixels: seq<byte>, keyframe: bool) {
    && |s'.sent| == |s.sent| + 1 && s.sent <= s'.sent
    && var f := s'.sent[|s.sent|];
       && GoodFrame(o, f) && f.pixels == pixels && f.keyframe == keyframe && f.update.sequence == |s.sent| + 1
       && s'.channel == s.channel + [if keyframe then SendKeyframe(f.update) else SendFrame(f.update)]
  }

  lemma SentStep(o: Output, s: System, pixels: seq<byte>, damage: Damage)
    requires Inv(o, s) && Enabled(o, s, Render(pixels, damage))
    requires s.enc.clientConnected && (s.enc.forceKeyframe || s.sent == [] || pixels != s.sent[|s.sent| - 1].pixels)
    ensures Sends(o, s, AfterRender(o, s, pixels, damage), pixels, s.enc.forceKeyframe || DeltasSince(s.sent) >= 120)
  {
    NewFrameFollows(o, s, pixels, damage);
  }

  /** In every run: a rendered frame is sent exactly if a client is connected and a keyframe is owed
      to it, whatever the pixels are, or they differ from those of the frame sent last; it is a
      keyframe exactly if one is owed or 120 deltas went out since the last one. */
  lemma RenderSends(o: Output, states: seq<System>, steps: seq<Step>, n: nat)
    requires ResyncRuns.Run(o, states, steps) && n < |steps| && steps[n].Render?
    ensures var s, s', pixels := states[n], states[n + 1], steps[n].pixels;
            var owed := KeyframeOwed(states, steps, n);
            if HasClient(states, steps, n) && (owed || s.sent == [] || pixels != s.sent[|s.sent| - 1].pixels)
            then Sends(o, s, s', pixels, owed || DeltasSince(s.sent) >= 120)
            else s'.sent == s.sent && s'.channel == s.channel
  {
    RunKeepsInv(o, states, steps, n);
    ConnectedIff(o, states, steps, n);
    ForcedIffOwed(o, states, steps, n);
    var s, pixels, damage := states[n], steps[n].pixels, steps[n].damage;
    if s.enc.clientConnected && (s.enc.forceKeyframe || s.sent == [] || pixels != s.sent[|s.sent| - 1].pixels) {
      SentStep(o, s, pixels, damage);
    }
  }

  // ----- requests

  function CountAsked(checks: seq<Check>): nat {
    if checks == [] then 0
    else CountAsked(checks[..|checks| - 1]) + if checks[|checks| - 1].Asked? then 1 else 0
  }

  /** Requests of connection `k` that the network thread has read in the first `n` steps. */
  function Relays(steps: seq<Step>, n: nat, k: nat): nat
    requires n <= |steps|
  {
    if n == 0 then 0 else Relays(steps, n - 1, k) + if steps[n - 1] == Relay(k) then 1 else 0
  }

  function AllRelays(steps: seq<Step>, n: nat): nat
    requires n <= |steps|
  {
    if n == 0 then 0 else AllRelays(steps, n - 1) + if steps[n - 1].Relay? then 1 else 0
  }

  ghost predicate RequestsMatch(clients: map<nat, Client>, k: nat, relayed: nat) {
    if k in clients then CountAsked(clients[k].checks) == clients[k].requests + relayed else relayed == 0
  }

  lemma AskedSnoc(checks: seq<Check>, c: Check)
    ensures CountAsked(checks + [c]) == CountAsked(checks) + if c.Asked? then 1 else 0
  {
    assert (checks + [c])[..|checks|] == checks;
  }

  lemma ApplyCounts(o: Output, c: Client)
    requires c.wire != [] && CanApply(o, c.fb, c.wire[0])
    ensures CountAsked(AfterApply(o, c).checks) - AfterApply(o, c).requests == CountAsked(c.checks) - c.requests
  {
    AskedSnoc(c.checks, Matched);
    AskedSnoc(c.checks, Waited);
    AskedSnoc(c.checks, Asked);
  }

  lemma StepKeepsRequests(o: Output, s: System, step: Step, k: nat, relayed: nat)
    requires Enabled(o, s, step) && Safe(o, s, step) && ConnsFresh(s) && RequestsMatch(s.clients, k, relayed)
    ensures RequestsMatch(Next(o, s, step).clients, k, relayed + if step == Relay(k) then 1 else 0)
  {
    if step.Apply? {
      ApplyCounts(o, s.clients[step.conn]);
    }
  }

  /** Every check that asks for a keyframe sends exactly one request: it is still under way, or the
      network thread has read it. */
  lemma {:induction false} RequestsAreAsked(o: Output, states: seq<System>, steps: seq<Step>, n: nat, k: nat)
    requires ResyncRuns.Run(o, states, steps) && n <= |steps|
    ensures RequestsMatch(states[n].clients, k, Relays(steps, n, k))
  {
    if n > 0 {
      RequestsAreAsked(o, states, steps, n - 1, k);
      RunKeepsInv(o, states, steps, n - 1);
      RunFacts(o, states, steps, n - 1);
      StepKeepsRequests(o, states[n - 1], steps[n - 1], k, Relays(steps, n - 1, k));
    }
  }

  function CountRequests(q: seq<NetToCompositor>): nat {
    if q == [] then 0 else (if q[0].RequestKeyframe? then 1 else 0) + CountRequests(q[1..])
  }

  /** Requests that the compositor has read. */
  ghost function RequestsRead(states: seq<System>, steps: seq<Step>, n: nat): nat
    requires n <= |steps| < |states|
  {
    if n == 0 then 0 else RequestsRead(states, steps, n - 1) + if ReadsRequest(states, steps, n - 1) then 1 else 0
  }

  lemma {:induction false} RequestsSnoc(q: seq<NetToCompositor>, e: NetToCompositor)
    ensures CountRequests(q + [e]) == CountRequests(q) + if e.RequestKeyframe? then 1 else 0
  {
    if q == [] {
      assert [e][1..] == [] && q + [e] == [e];
    } else {
      assert (q + [e])[1..] == q[1..] + [e];
      RequestsSnoc(q[1..], e);
    }
  }

  lemma StepCountsRequests(o: Output, s: System, step: Step)
    requires Enabled(o, s, step) && Safe(o, s, step)
    ensures CountRequests(Next(o, s, step).events) + (if step.Drain? && s.events[0].RequestKeyframe? then 1 else 0)
         == CountRequests(s.events) + if step.Relay? then 1 else 0
  {
    match step {
      case NetWake(w) =>
        if Emitted(s.net, w) == [] {
          assert s.events + Emitted(s.net, w) == s.events;
        } else {
          RequestsSnoc(s.events, Emitted(s.net, w)[0]);
          assert Emitted(s.net, w) == [Emitted(s.net, w)[0]];
        }
      case Relay(_) => RequestsSnoc(s.events, RequestKeyframe);
      case _ =>
    }
  }

  /** Every request that the network thread has read is queued for the compositor, once, or has been
      read there. */
  lemma {:induction false} RequestsArrive(o: Output, states: seq<System>, steps: seq<Step>, n: nat)
    requires ResyncRuns.Run(o, states, steps) && n <= |steps|
    ensures CountRequests(states[n].events) + RequestsRead(states, steps, n) == AllRelays(steps, n)
  {
    if n > 0 {
      RequestsArrive(o, states, steps, n - 1);
      RunKeepsInv(o, states, steps, n - 1);
      StepCountsRequests(o, states[n - 1], steps[n - 1]);
    }
  }

  /** Messages that the network thread has taken off the channel in the first `n` steps. */
  function Takes(steps: seq<Step>, n: nat): nat
    requires n <= |steps|
  {
    if n == 0 then 0 else Takes(steps, n - 1) + if steps[n - 1].Forward? || steps[n - 1].Discard? then 1 else 0
  }

  /** Every message is taken off the channel once. */
  lemma {:induction false} EveryMessageTaken(o: Output, states: seq<System>, steps: seq<Step>, n: nat)
    requires ResyncRuns.Run(o, states, steps) && n <= |steps|
    ensures Consumed(states[n]) == Takes(steps, n)
  {
    if n > 0 {
      EveryMessageTaken(o, states, steps, n - 1);
      RunKeepsInv(o, states, steps, n - 1);
      StepTakes(o, states[n - 1], steps[n - 1]);
    }
  }

  lemma StepTakes(o: Output, s: System, step: Step)
    requires Enabled(o, s, step) && Safe(o, s, step)
    ensures Consumed(Next(o, s, step)) == Consumed(s) + if step.Forward? || step.Discard? then 1 else 0
  {
  }

  // ----- what a delta is compared with

  function Blank(n: nat): seq<byte> { seq(n, _ => 0) }

  /** While a client is connected, frames are compared with the last one sent to it, and with black
      before that. */
  ghost predicate ComparedWith(s: System) {
    s.enc.clientConnected ==>
      s.enc.previousFrame
      == if s.sent != [] && s.sent[|s.sent| - 1].bind == s.binds then s.sent[|s.sent| - 1].pixels
         else Blank(|s.enc.previousFrame|)
  }

  ghost predicate BindsCounted(s: System) {
    s.sent != [] ==> s.sent[|s.sent| - 1].bind <= s.binds
  }

  lemma StepKeepsBase(o: Output, s: System, step: Step)
    requires Inv(o, s) && Enabled(o, s, step) && Safe(o, s, step) && ComparedWith(s) && BindsCounted(s)
    ensures ComparedWith(Next(o, s, step)) && BindsCounted(Next(o, s, step))
  {
  }

  lemma {:induction false} BaseIsShared(o: Output, states: seq<System>, steps: seq<Step>, n: nat)
    requires ResyncRuns.Run(o, states, steps) && n <= |steps|
    ensures ComparedWith(states[n]) && BindsCounted(states[n])
  {
    if n > 0 {
      BaseIsShared(o, states, steps, n - 1);
      RunKeepsInv(o, states, steps, n - 1);
      StepKeepsBase(o, states[n - 1], steps[n - 1]);
    }
  }

  // ----- who gets frames

  /** Step `m` opens connection `conn`, for a client with or without the display capability. */
  ghost predicate OpensFor(states: seq<System>, steps: seq<Step>, m: nat, conn: nat, display: bool)
    requires m < |steps| < |states|
  {
    steps[m].NetWake? && steps[m].w.Routed? && steps[m].w.display == display && states[m].accepted == conn
  }

  ghost predicate OpenedFor(states: seq<System>, steps: seq<Step>, n: nat, conn: nat, display: bool)
    requires n <= |steps| < |states|
  {
    exists m: nat :: m < n && OpensFor(states, steps, m, conn, display)
  }

  lemma OpenedStays(states: seq<System>, steps: seq<Step>, n: nat, conn: nat, display: bool)
    requires n < |steps| < |states| && OpenedFor(states, steps, n, conn, display)
    ensures OpenedFor(states, steps, n + 1, conn, display)
  {
    var m: nat :| m < n && OpensFor(states, steps, m, conn, display);
    assert OpensFor(states, steps, m, conn, display);
  }

  /** In every run the connection in hand has the capability that its client presented. */
  lemma {:induction false} DisplayAsOpened(o: Output, states: seq<System>, steps: seq<Step>, n: nat)
    requires ResyncRuns.Run(o, states, steps) && n <= |steps|
    ensures !states[n].net.Idle? ==> OpenedFor(states, steps, n, states[n].net.conn, states[n].net.display)
  {
    if n > 0 {
      DisplayAsOpened(o, states, steps, n - 1);
      RunKeepsInv(o, states, steps, n - 1);
      var s, step := states[n - 1], steps[n - 1];
      if !s.net.Idle? { OpenedStays(states, steps, n - 1, s.net.conn, s.net.display); }
      if step.NetWake? && step.w.Routed? { assert OpensFor(states, steps, n - 1, s.accepted, step.w.display); }
    }
  }

  /** The step that sends a client its first frame is taken while it is served, with the capability. */
  lemma FirstFrameNeedsDisplay(o: Output, s: System, step: Step, k: nat)
    requires Enabled(o, s, step) && Safe(o, s, step)
    requires k in Next(o, s, step).clients && Next(o, s, step).clients[k].delivered != []
    ensures (k in s.clients && s.clients[k].delivered != []) || (s.net.Serving? && s.net.conn == k && s.net.display)
  {
  }

  /** In every run only a client with the display capability is ever sent a frame. */
  lemma {:induction false} FramesNeedDisplay(o: Output, states: seq<System>, steps: seq<Step>, n: nat, k: nat)
    requires ResyncRuns.Run(o, states, steps) && n <= |steps|
    requires k in states[n].clients && states[n].clients[k].delivered != []
    ensures OpenedFor(states, steps, n, k, true)
  {
    if n > 0 {
      RunKeepsInv(o, states, steps, n - 1);
      FirstFrameNeedsDisplay(o, states[n - 1], steps[n - 1], k);
      if k in states[n - 1].clients && states[n - 1].clients[k].delivered != [] {
        FramesNeedDisplay(o, states, steps, n - 1, k);
      } else {
        DisplayAsOpened(o, states, steps, n - 1);
      }
      OpenedStays(states, steps, n - 1, k, true);
    }
  }

  /** A forwarded message reaches the client as the gate lets it. */
  lemma ForwardedThroughGate(s: System)
    requires s.net.Serving? && s.channel != [] && s.net.conn in s.clients
    ensures var s' := AfterForward(s, false);
            && s'.clients[s.net.conn].wire
               == s.clients[s.net.conn].wire + Forwarded(s.net.display, s.net.keyframeSeen, s.channel[..1])
            && s'.net.keyframeSeen == SeenAfter(s.net.keyframeSeen, s.channel[..1])
  {
    assert s.channel[..1][1..] == [];
  }
}
