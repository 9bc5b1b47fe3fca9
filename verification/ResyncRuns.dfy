/**
 What holds in every run of the display protocol: with any losses, and with none.
 */
module ResyncRuns {
  import opened Bytes
  import opened Encoding
  import opened Regions
  import opened Display
  import opened Pictures
  import opened NetworkLoop
  import opened Resync
  import opened ResyncProofs

  /** Step `i` is possible and, as long as it does not go wrong, leads to the next state. */
  ghost predicate TakesStep(o: Output, states: seq<System>, steps: seq<Step>, i: nat)
    requires i < |steps| < |states|
  {
    && Enabled(o, states[i], steps[i])
    && (Safe(o, states[i], steps[i]) ==> states[i + 1] == Next(o, states[i], steps[i]))
  }

  ghost predicate StepsTo(o: Output, s: System, step: Step, s': System) {
    Enabled(o, s, step) && Safe(o, s, step) && s' == Next(o, s, step)
  }

  ghost predicate Run(o: Output, states: seq<System>, steps: seq<Step>) {
    && |states| == |steps| + 1 && Init(o, states[0])
    && (forall i :: 0 <= i < |steps| ==> TakesStep(o, states, steps, i))
  }

  /** In every run no received frame panics a client, and the invariant holds throughout. */
  lemma {:induction false} RunKeepsInv(o: Output, states: seq<System>, steps: seq<Step>, n: nat)
    requires Run(o, states, steps) && n <= |steps|
    ensures Inv(o, states[n])
    ensures n < |steps| ==> StepsTo(o, states[n], steps[n], states[n + 1])
  {
    if n == 0 {
      InitHasInv(o, states[0]);
    } else {
      RunKeepsInv(o, states, steps, n - 1);
      StepKeepsInv(o, states[n - 1], steps[n - 1]);
    }
    if n < |steps| {
      assert TakesStep(o, states, steps, n);
      StepKeepsInv(o, states[n], steps[n]);
    }
  }

  lemma RunKeepsClient(o: Output, states: seq<System>, steps: seq<Step>, n: nat, k: nat)
    requires Run(o, states, steps) && n <= |steps| && k in states[n].clients
    ensures SentInv(o, states[n].sent) && ClientInv(o, states[n].sent, Consumed(states[n]), states[n].clients[k])
  {
    RunKeepsInv(o, states, steps, n);
  }

  // ----- with any losses

  lemma SyncedScreen(o: Output, sent: seq<SentFrame>, consumed: int, c: Client)
    requires SentInv(o, sent) && ClientInv(o, sent, consumed, c)
    requires 0 < c.Applied() <= |c.delivered| && InSync(c.delivered, c.Applied())
    ensures var m := c.delivered[c.Applied() - 1].sequence;
            1 <= m <= |sent| && GoodFrame(o, sent[m - 1]) && c.fb == Picture(o, sent[m - 1].pixels)
  {
    assert SentOk(o, sent, c.delivered[c.Applied() - 1].sequence - 1);
  }

  /** Whatever was lost before: a client whose last applied frame is a keyframe, or continues one
      without a gap in the sequence numbers, shows exactly the server's picture in that frame. */
  lemma GaplessIsExact(o: Output, states: seq<System>, steps: seq<Step>, n: nat, k: nat)
    requires Run(o, states, steps) && n <= |steps| && k in states[n].clients
    requires var c := states[n].clients[k];
             0 < c.Applied() <= |c.delivered| && InSync(c.delivered, c.Applied())
    ensures var c := states[n].clients[k];
            var m := c.delivered[c.Applied() - 1].sequence;
            && 1 <= m <= |states[n].sent| && GoodFrame(o, states[n].sent[m - 1])
            && c.fb == Picture(o, states[n].sent[m - 1].pixels)
  {
    RunKeepsClient(o, states, steps, n, k);
    SyncedScreen(o, states[n].sent, Consumed(states[n]), states[n].clients[k]);
  }

  lemma {:induction false} KeyframesCover(o: Output, sent: seq<SentFrame>, d: seq<Delivery>, n: nat, row: nat, px: nat)
    requires SentInv(o, sent) && InRange(sent, d) && n <= |d| && row < o.height && px < o.width
    ensures LastKeyframe(d, n) <= LastCovering(sent, d, n, row, px)
  {
    if n > 0 {
      KeyframesCover(o, sent, d, n - 1, row, px);
      assert SentOk(o, sent, d[n - 1].sequence - 1);
      if d[n - 1].keyframe {
        assert Hits(sent[d[n - 1].sequence - 1].boxes[0], row, px * 4);
      }
    }
  }

  lemma {:induction false} LastCoveringIs(sent: seq<SentFrame>, d: seq<Delivery>, n: nat, row: nat, px: nat)
    requires InRange(sent, d) && n <= |d|
    ensures var k := LastCovering(sent, d, n, row, px);
            && (k >= 0 ==> Covered(sent[d[k].sequence - 1].boxes, row, px * 4))
            && forall j :: k < j < n ==> !Covered(sent[d[j].sequence - 1].boxes, row, px * 4)
  {
    if n > 0 { LastCoveringIs(sent, d, n - 1, row, px); }
  }

  /** Delivery `j` is the last of those applied that carries the pixel. */
  ghost predicate LastCarrier(sent: seq<SentFrame>, c: Client, j: nat, row: nat, px: nat)
    requires InRange(sent, c.delivered) && c.Applied() <= |c.delivered|
  {
    && j < c.Applied()
    && Covered(sent[c.delivered[j].sequence - 1].boxes, row, px * 4)
    && forall i :: j < i < c.Applied() ==> !Covered(sent[c.delivered[i].sequence - 1].boxes, row, px * 4)
  }

  lemma CarrierExists(o: Output, sent: seq<SentFrame>, c: Client, row: nat, px: nat) returns (j: nat)
    requires SentInv(o, sent) && InRange(sent, c.delivered) && |c.wire| <= |c.delivered|
    requires row < o.height && px < o.width && LastKeyframe(c.delivered, c.Applied()) >= 0
    ensures j == LastCovering(sent, c.delivered, c.Applied(), row, px)
    ensures LastKeyframe(c.delivered, c.Applied()) <= j && LastCarrier(sent, c, j, row, px)
  {
    KeyframesCover(o, sent, c.delivered, c.Applied(), row, px);
    LastCoveringIs(sent, c.delivered, c.Applied(), row, px);
    j := LastCovering(sent, c.delivered, c.Applied(), row, px);
  }

  lemma PixelOnScreen(o: Output, sent: seq<SentFrame>, c: Client, row: nat, px: nat) returns (j: nat)
    requires SentInv(o, sent) && InRange(sent, c.delivered) && |c.wire| <= |c.delivered|
    requires row < o.height && px < o.width && PixelFresh(o, sent, c, row, px)
    requires LastKeyframe(c.delivered, c.Applied()) >= 0
    ensures LastKeyframe(c.delivered, c.Applied()) <= j && LastCarrier(sent, c, j, row, px)
    ensures GoodFrame(o, sent[c.delivered[j].sequence - 1])
    ensures PixelOf(o, c.fb, row, px) == PixelOf(o, Picture(o, sent[c.delivered[j].sequence - 1].pixels), row, px)
  {
    j := CarrierExists(o, sent, c, row, px);
    assert SentOk(o, sent, c.delivered[j].sequence - 1);
  }

  lemma ClientPixel(o: Output, sent: seq<SentFrame>, consumed: int, c: Client, row: nat, px: nat)
    requires ClientInv(o, sent, consumed, c) && row < o.height && px < o.width
    ensures InRange(sent, c.delivered) && |c.wire| <= |c.delivered| && PixelFresh(o, sent, c, row, px)
  {
  }

  /** Whatever was lost: once a client has applied a keyframe, every pixel on its screen is, as a
      whole, the server's in the last frame it applied that carries the pixel, and that frame is
      no older than the last keyframe it applied. */
  lemma NoPixelOlderThanKeyframe(o: Output, states: seq<System>, steps: seq<Step>, n: nat, k: nat, row: nat, px: nat)
    returns (j: nat)
    requires Run(o, states, steps) && n <= |steps| && k in states[n].clients && row < o.height && px < o.width
    requires var c := states[n].clients[k];
             |c.wire| <= |c.delivered| && LastKeyframe(c.delivered, c.Applied()) >= 0
    ensures var s := states[n]; var c := s.clients[k];
            && InRange(s.sent, c.delivered) && LastKeyframe(c.delivered, c.Applied()) <= j
            && LastCarrier(s.sent, c, j, row, px) && GoodFrame(o, s.sent[c.delivered[j].sequence - 1])
            && PixelOf(o, c.fb, row, px) == PixelOf(o, Picture(o, s.sent[c.delivered[j].sequence - 1].pixels), row, px)
  {
    RunKeepsClient(o, states, steps, n, k);
    ClientPixel(o, states[n].sent, Consumed(states[n]), states[n].clients[k], row, px);
    j := PixelOnScreen(o, states[n].sent, states[n].clients[k], row, px);
  }

  /** Applying a keyframe puts a client back in sync, whatever it showed before. */
  lemma KeyframeResyncs(o: Output, s: System, k: nat)
    requires Inv(o, s) && k in s.clients && s.clients[k].wire != []
    requires s.clients[k].delivered[s.clients[k].Applied()].keyframe
    ensures Enabled(o, s, Apply(k)) && Safe(o, s, Apply(k))
    ensures var c := Next(o, s, Apply(k)).clients[k];
            && Exact(s.sent, c) && !c.keyframePending
  {
    var c := s.clients[k];
    assert ClientInv(o, s.sent, Consumed(s), c);
    ReceivedFrameApplies(o, s.sent, Consumed(s), c);
    ApplyStaysExact(o, s.sent, Consumed(s), c);
    ExactMatches(o, s.sent, Consumed(s), c);
  }

  lemma ShotMatches(o: Output, sent: seq<SentFrame>, n: nat, u: FrameUpdate)
    requires SentInv(o, sent) && IsUpdate(sent, n, u)
    ensures o.Valid() && o.IsClientBuffer(Shot(sent, n)) && Matches(o, Shot(sent, n), u)
  {
    assert SentOk(o, sent, n - 1);
    InSyncMatches(o, sent[n - 1].pixels, sent[n - 1].boxes, n);
  }

  /** A client that applies a frame in sync finds its checksum right. */
  lemma ExactMatches(o: Output, sent: seq<SentFrame>, consumed: int, c: Client)
    requires SentInv(o, sent) && ClientInv(o, sent, consumed, c) && c.wire != [] && CanApply(o, c.fb, c.wire[0])
    requires InSync(c.delivered, c.Applied() + 1)
    ensures Matches(o, BufferAfter(o, c.fb, c.wire[0]), c.wire[0])
  {
    ApplyStaysExact(o, sent, consumed, c);
    var n := NextMessage(sent, consumed, c);
    ShotMatches(o, sent, n, c.wire[0]);
  }

  /** Between two keyframe requests of a client some frame matched. */
  lemma RequestsAreSpaced(o: Output, states: seq<System>, steps: seq<Step>, n: nat, k: nat, i: nat, j: nat)
    requires Run(o, states, steps) && n <= |steps| && k in states[n].clients
    requires i < j < |states[n].clients[k].checks|
    requires states[n].clients[k].checks[i].Asked? && states[n].clients[k].checks[j].Asked?
    ensures exists m :: i < m < j && states[n].clients[k].checks[m].Matched?
  {
    RunKeepsInv(o, states, steps, n);
    var s := states[n];
    assert ClientInv(o, s.sent, Consumed(s), s.clients[k]);
  }

  // ----- the send order

  lemma {:induction false} DeltaRunIsCounted(sent: seq<SentFrame>, i: nat)
    requires i <= |sent| && forall j :: i <= j < |sent| ==> !sent[j].keyframe
    ensures DeltasSince(sent) >= |sent| - i
  {
    if i < |sent| {
      DeltaRunIsCounted(sent[..|sent| - 1], i);
    }
  }

  /** Any 121 frames sent one after another contain a keyframe. */
  lemma KeyframeEvery121(o: Output, states: seq<System>, steps: seq<Step>, n: nat, i: nat)
    requires Run(o, states, steps) && n <= |steps| && i + KEYFRAME_INTERVAL + 1 <= |states[n].sent|
    ensures exists j :: i <= j < i + KEYFRAME_INTERVAL + 1 && states[n].sent[j].keyframe
  {
    RunKeepsInv(o, states, steps, n);
    var sent := states[n].sent;
    var end := i + KEYFRAME_INTERVAL + 1;
    assert SentOk(o, sent, end - 1);
    if forall j :: i <= j < end ==> !sent[j].keyframe {
      DeltaRunIsCounted(sent[..end], i);
    }
  }

  /** The first frame sent after a client was bound is a keyframe. */
  lemma FirstAfterBindIsKeyframe(o: Output, states: seq<System>, steps: seq<Step>, n: nat, i: nat)
    requires Run(o, states, steps) && n <= |steps| && i < |states[n].sent|
    requires i == 0 || states[n].sent[i - 1].bind != states[n].sent[i].bind
    ensures states[n].sent[i].keyframe
  {
    RunKeepsInv(o, states, steps, n);
    assert SentOk(o, states[n].sent, i);
  }

  // ----- without losses

  /** A contiguous stretch of the send order that starts with a keyframe. */
  ghost predicate Contiguous(delivered: seq<Delivery>) {
    delivered != [] ==>
      && delivered[0].keyframe
      && forall j :: 0 <= j < |delivered| ==> delivered[j].sequence == delivered[0].sequence + j
  }

  ghost predicate Calm(c: Client) {
    && Contiguous(c.delivered)
    && !c.keyframePending && c.requests == 0
    && forall i :: 0 <= i < |c.checks| ==> c.checks[i].Matched?
  }

  /** What the connection being served has been sent: everything from its first keyframe on. */
  ghost predicate CaughtUp(s: System) {
    s.net.Serving? ==>
      && s.net.conn in s.clients
      && var d := s.clients[s.net.conn].delivered;
         if s.net.display && s.net.keyframeSeen then d != [] && d[|d| - 1].sequence == Consumed(s) else d == []
  }

  ghost predicate AllCalm(clients: map<nat, Client>) {
    forall k :: k in clients ==> Calm(clients[k])
  }

  ghost predicate LosslessInv(o: Output, s: System) {
    Inv(o, s) && CaughtUp(s) && AllCalm(s.clients)
  }

  lemma {:induction false} ContiguousInSync(d: seq<Delivery>, n: nat)
    requires Contiguous(d) && 0 < n <= |d|
    ensures InSync(d, n)
  {
    if n > 1 {
      ContiguousInSync(d, n - 1);
    }
  }

  lemma CalmApply(o: Output, sent: seq<SentFrame>, consumed: int, c: Client)
    requires SentInv(o, sent) && ClientInv(o, sent, consumed, c) && Calm(c) && c.wire != []
    requires CanApply(o, c.fb, c.wire[0])
    ensures Calm(AfterApply(o, c))
  {
    ContiguousInSync(c.delivered, c.Applied() + 1);
    ExactMatches(o, sent, consumed, c);
  }

  lemma CalmDelivery(sent: seq<SentFrame>, consumed: int, c: Client, m: CompositorToNet)
    requires Calm(c) && m.frame.sequence == consumed + 1
    requires if c.delivered == [] then m.SendKeyframe? else c.delivered[|c.delivered| - 1].sequence == consumed
    ensures Calm(Delivered(c, m))
  {
  }

  lemma ReplacedCalm(clients: map<nat, Client>, conn: nat, c: Client)
    requires AllCalm(clients) && Calm(c)
    ensures AllCalm(clients[conn := c])
  {
  }

  lemma ForwardedCalm(s: System, m: CompositorToNet)
    requires CaughtUp(s) && AllCalm(s.clients) && s.net.Serving? && s.channel != [] && s.channel[0] == m
    requires m.frame.sequence == Consumed(s) + 1
    ensures CaughtUp(AfterForward(s, false)) && AllCalm(AfterForward(s, false).clients)
  {
    if s.net.display && Opens(s.net.keyframeSeen, m) {
      var c := s.clients[s.net.conn];
      CalmDelivery(s.sent, Consumed(s), c, m);
      ReplacedCalm(s.clients, s.net.conn, Delivered(c, m));
    }
  }

  lemma ForwardKeepsLossless(o: Output, s: System)
    requires LosslessInv(o, s) && Enabled(o, s, Forward(false))
    ensures CaughtUp(AfterForward(s, false)) && AllCalm(AfterForward(s, false).clients)
  {
    TakeKeepsChannel(s.sent, s.channel);
    SentNumber(o, s.sent, Consumed(s));
    ForwardedCalm(s, s.channel[0]);
  }

  lemma ReplacedCaughtUp(s: System, conn: nat, c: Client)
    requires CaughtUp(s) && conn in s.clients && c.delivered == s.clients[conn].delivered
    ensures CaughtUp(s.(clients := s.clients[conn := c]))
  {
  }

  lemma ApplyKeepsLossless(o: Output, s: System, conn: nat)
    requires LosslessInv(o, s) && Enabled(o, s, Apply(conn)) && Safe(o, s, Apply(conn))
    ensures CaughtUp(Next(o, s, Apply(conn))) && AllCalm(Next(o, s, Apply(conn)).clients)
  {
    var c := s.clients[conn];
    assert ClientInv(o, s.sent, Consumed(s), c);
    CalmApply(o, s.sent, Consumed(s), c);
    ReplacedCalm(s.clients, conn, AfterApply(o, c));
    ReplacedCaughtUp(s, conn, AfterApply(o, c));
  }

  lemma WakeKeepsLossless(o: Output, s: System, w: Wakeup)
    requires CaughtUp(s) && AllCalm(s.clients) && Enabled(o, s, NetWake(w))
    ensures CaughtUp(AfterWake(o, s, w)) && AllCalm(AfterWake(o, s, w).clients)
  {
  }

  lemma RenderKeepsLossless(o: Output, s: System, pixels: seq<byte>, damage: Damage)
    requires CaughtUp(s) && Enabled(o, s, Render(pixels, damage))
    ensures CaughtUp(AfterRender(o, s, pixels, damage))
  {
  }

  lemma StepKeepsCalm(o: Output, s: System, step: Step)
    requires LosslessInv(o, s) && Enabled(o, s, step) && Safe(o, s, step) && step != Forward(true)
    ensures CaughtUp(Next(o, s, step)) && AllCalm(Next(o, s, step).clients)
  {
    match step {
      case Render(pixels, damage) => RenderKeepsLossless(o, s, pixels, damage);
      case NetWake(w) => WakeKeepsLossless(o, s, w);
      case Drain(bind) =>
      case Forward(lost) => ForwardKeepsLossless(o, s);
      case Discard =>
      case Apply(conn) => ApplyKeepsLossless(o, s, conn);
      case Relay(conn) =>
    }
  }

  lemma StepKeepsLossless(o: Output, s: System, step: Step)
    requires LosslessInv(o, s) && Enabled(o, s, step) && step != Forward(true)
    ensures Safe(o, s, step) && LosslessInv(o, Next(o, s, step))
  {
    StepKeepsInv(o, s, step);
    StepKeepsCalm(o, s, step);
  }

  lemma {:induction false} LosslessRunKeepsInv(o: Output, states: seq<System>, steps: seq<Step>, n: nat)
    requires Run(o, states, steps) && n <= |steps| && forall i :: 0 <= i < n ==> steps[i] != Forward(true)
    ensures LosslessInv(o, states[n])
  {
    if n == 0 {
      InitHasInv(o, states[0]);
    } else {
      LosslessRunKeepsInv(o, states, steps, n - 1);
      RunKeepsInv(o, states, steps, n - 1);
      StepKeepsLossless(o, states[n - 1], steps[n - 1]);
    }
  }

  /** Without losses, whatever connects, disconnects and preemptions happen: after any frame it
      applies, every client shows exactly the server's picture in that frame, it has been sent a
      contiguous stretch of the send order that starts with a keyframe, and it never asks for one. */
  lemma LosslessRunsStayExact(o: Output, states: seq<System>, steps: seq<Step>, n: nat, k: nat)
    requires Run(o, states, steps) && n <= |steps| && forall i :: 0 <= i < n ==> steps[i] != Forward(true)
    requires k in states[n].clients
    ensures var s := states[n]; var c := s.clients[k];
            && Contiguous(c.delivered) && c.requests == 0 && (forall i :: 0 <= i < |c.checks| ==> c.checks[i].Matched?)
            && (0 < c.Applied() <= |c.delivered| ==>
                  var m := c.delivered[c.Applied() - 1].sequence;
                  && 1 <= m <= |s.sent| && GoodFrame(o, s.sent[m - 1])
                  && c.fb == Picture(o, s.sent[m - 1].pixels))
  {
    LosslessRunKeepsInv(o, states, steps, n);
    var c := states[n].clients[k];
    assert Calm(c);
    if 0 < c.Applied() <= |c.delivered| {
      ContiguousInSync(c.delivered, c.Applied());
      GaplessIsExact(o, states, steps, n, k);
    }
  }
}
