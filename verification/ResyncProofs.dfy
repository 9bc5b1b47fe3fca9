/**
 Every step of the display protocol keeps its invariant, and what follows from that for whole
 runs.
 */
module ResyncProofs {
  import opened Bytes
  import opened Regions
  import opened Display
  import opened Pictures
  import opened NetworkLoop
  import opened Resync

  lemma InitHasInv(o: Output, s: System)
    requires Init(o, s)
    ensures Inv(o, s)
  {
  }

  // ----- the send order only grows

  lemma {:induction false} LastCoveringGrows(sent: seq<SentFrame>, f: SentFrame, d: seq<Delivery>, n: nat, row: nat, px: nat)
    requires InRange(sent, d) && InRange(sent + [f], d) && n <= |d|
    ensures LastCovering(sent + [f], d, n, row, px) == LastCovering(sent, d, n, row, px)
  {
    if n > 0 { LastCoveringGrows(sent, f, d, n - 1, row, px); }
  }

  lemma ClientInvGrows(o: Output, sent: seq<SentFrame>, f: SentFrame, consumed: int, consumed': int, c: Client)
    requires ClientInv(o, sent, consumed, c) && consumed <= consumed'
    ensures ClientInv(o, sent + [f], consumed', c)
  {
    var sent' := sent + [f];
    assert InRange(sent', c.delivered);
    assert DeliveryInv(sent', consumed', c);
    forall row: nat, px: nat | row < o.height && px < o.width ensures PixelFresh(o, sent', c, row, px) {
      assert PixelFresh(o, sent, c, row, px);
      LastCoveringGrows(sent, f, c.delivered, c.Applied(), row, px);
    }
  }

  lemma DeltasSinceSnoc(sent: seq<SentFrame>, f: SentFrame)
    ensures DeltasSince(sent + [f]) == if f.keyframe then 0 else DeltasSince(sent) + 1
  {
    assert (sent + [f])[..|sent|] == sent;
  }

  lemma SendKeepsSentOk(o: Output, sent: seq<SentFrame>, f: SentFrame, n: nat)
    requires n < |sent| && SentOk(o, sent, n)
    ensures SentOk(o, sent + [f], n)
  {
    assert (sent + [f])[..n + 1] == sent[..n + 1];
  }

  lemma {:induction false} SendKeepsSentInv(o: Output, sent: seq<SentFrame>, f: SentFrame)
    requires SentInv(o, sent) && GoodFrame(o, f) && f.update.sequence == |sent| + 1
    requires if sent == [] then f.keyframe else Follows(o, sent[|sent| - 1], f)
    requires f.keyframe || DeltasSince(sent) < KEYFRAME_INTERVAL
    ensures SentInv(o, sent + [f])
  {
    DeltasSinceSnoc(sent, f);
    var sent' := sent + [f];
    forall n: nat | n < |sent'| ensures SentOk(o, sent', n) {
      if n < |sent| {
        SendKeepsSentOk(o, sent, f, n);
      } else {
        assert sent'[..n + 1] == sent';
      }
    }
  }

  lemma SendKeepsChannel(sent: seq<SentFrame>, channel: seq<CompositorToNet>, f: SentFrame)
    requires ChannelInv(sent, channel)
    ensures ChannelInv(sent + [f], channel + [Tagged(f.keyframe, f.update)])
  {
    var sent', channel' := sent + [f], channel + [Tagged(f.keyframe, f.update)];
    forall i | 0 <= i < |channel'|
      ensures IsMessage(sent', |sent'| - |channel'| + i + 1, channel'[i])
    {
      if i < |channel| {
        assert IsMessage(sent, |sent| - |channel| + i + 1, channel[i]);
      }
    }
  }

  lemma SendKeepsClients(o: Output, sent: seq<SentFrame>, f: SentFrame, consumed: int, clients: map<nat, Client>)
    requires ClientsInv(o, sent, consumed, clients)
    ensures ClientsInv(o, sent + [f], consumed, clients)
  {
    forall k | k in clients ensures ClientInv(o, sent + [f], consumed, clients[k]) {
      ClientInvGrows(o, sent, f, consumed, consumed, clients[k]);
    }
  }

  lemma NewFrameFollows(o: Output, s: System, pixels: seq<byte>, damage: Damage)
    requires EncInv(o, s) && SentInv(o, s.sent) && Enabled(o, s, Render(pixels, damage))
    requires s.enc.clientConnected && !Skips(s.enc, pixels)
    ensures GoodFrame(o, NewFrame(o, s, pixels, damage))
    ensures if s.sent == [] then NewFrame(o, s, pixels, damage).keyframe
            else Follows(o, s.sent[|s.sent| - 1], NewFrame(o, s, pixels, damage))
  {
    FrameBoxesOnOutput(o, SendsKeyframe(s.enc), damage);
    BoxesCoverChange(o, s.lastRender, pixels, SendsKeyframe(s.enc), damage);
    if s.sent != [] {
      assert SentOk(o, s.sent, |s.sent| - 1);
    }
  }

  lemma RenderKeepsEncInv(o: Output, s: System, pixels: seq<byte>, damage: Damage)
    requires EncInv(o, s) && SentInv(o, s.sent) && Enabled(o, s, Render(pixels, damage))
    ensures EncInv(o, AfterRender(o, s, pixels, damage))
  {
    if s.enc.clientConnected && !Skips(s.enc, pixels) {
      DeltasSinceSnoc(s.sent, NewFrame(o, s, pixels, damage));
    }
  }

  lemma RenderKeepsSentInv(o: Output, s: System, pixels: seq<byte>, damage: Damage)
    requires EncInv(o, s) && SentInv(o, s.sent) && Enabled(o, s, Render(pixels, damage))
    ensures SentInv(o, AfterRender(o, s, pixels, damage).sent)
  {
    if s.enc.clientConnected && !Skips(s.enc, pixels) {
      NewFrameFollows(o, s, pixels, damage);
      SendKeepsSentInv(o, s.sent, NewFrame(o, s, pixels, damage));
    }
  }

  lemma RenderKeepsInv(o: Output, s: System, pixels: seq<byte>, damage: Damage)
    requires Inv(o, s) && Enabled(o, s, Render(pixels, damage))
    ensures Inv(o, AfterRender(o, s, pixels, damage))
  {
    RenderKeepsEncInv(o, s, pixels, damage);
    RenderKeepsSentInv(o, s, pixels, damage);
    if s.enc.clientConnected && !Skips(s.enc, pixels) {
      var f := NewFrame(o, s, pixels, damage);
      SendKeepsChannel(s.sent, s.channel, f);
      SendKeepsClients(o, s.sent, f, Consumed(s), s.clients);
    }
  }

  // ----- the network thread and the event queue

  lemma NewClientInv(o: Output, sent: seq<SentFrame>, consumed: int)
    ensures ClientInv(o, sent, consumed, Client(Black(o), false, 0, [], [], []))
  {
  }

  lemma ClientKept(o: Output, sent: seq<SentFrame>, consumed: int, clients: map<nat, Client>, k: nat, c: Client)
    requires ClientsInv(o, sent, consumed, clients) && ClientInv(o, sent, consumed, c)
    ensures ClientsInv(o, sent, consumed, clients[k := c])
  {
  }

  lemma WakeKeepsInv(o: Output, s: System, w: Wakeup)
    requires Inv(o, s) && Enabled(o, s, NetWake(w))
    ensures Inv(o, AfterWake(o, s, w))
  {
    if w.Bound? {
      NewClientInv(o, s.sent, Consumed(s));
      ClientKept(o, s.sent, Consumed(s), s.clients, s.net.conn, Client(Black(o), false, 0, [], [], []));
    }
  }

  lemma DrainKeepsEncInv(o: Output, s: System, bind: bool)
    requires EncInv(o, s) && Enabled(o, s, Drain(bind))
    ensures EncInv(o, AfterDrain(s, bind))
  {
  }

  lemma DrainKeepsInv(o: Output, s: System, bind: bool)
    requires Inv(o, s) && Enabled(o, s, Drain(bind))
    ensures Inv(o, AfterDrain(s, bind))
  {
    DrainKeepsEncInv(o, s, bind);
  }

  lemma RelayKeepsClient(o: Output, sent: seq<SentFrame>, consumed: int, c: Client)
    requires ClientInv(o, sent, consumed, c) && c.requests > 0
    ensures ClientInv(o, sent, consumed, Relayed(c))
  {
    var c' := Relayed(c);
    forall row: nat, px: nat | row < o.height && px < o.width ensures PixelFresh(o, sent, c', row, px) {
      assert PixelFresh(o, sent, c, row, px);
    }
  }

  lemma {:induction false} InSyncPrefix(d: seq<Delivery>, x: Delivery, n: nat)
    requires n <= |d|
    ensures InSync(d + [x], n) == InSync(d, n)
  {
    if n > 1 { InSyncPrefix(d, x, n - 1); }
  }

  lemma {:induction false} LastCoveringPrefix(sent: seq<SentFrame>, d: seq<Delivery>, x: Delivery, n: nat, row: nat, px: nat)
    requires InRange(sent, d) && InRange(sent, d + [x]) && n <= |d|
    ensures LastCovering(sent, d + [x], n, row, px) == LastCovering(sent, d, n, row, px)
  {
    if n > 0 { LastCoveringPrefix(sent, d, x, n - 1, row, px); }
  }

  lemma TakeKeepsChannel(sent: seq<SentFrame>, channel: seq<CompositorToNet>)
    requires ChannelInv(sent, channel) && channel != []
    ensures ChannelInv(sent, channel[1..]) && IsMessage(sent, |sent| - |channel| + 1, channel[0])
  {
    forall i | 0 <= i < |channel| - 1
      ensures IsMessage(sent, |sent| - |channel[1..]| + i + 1, channel[1..][i])
    {
      assert IsMessage(sent, |sent| - |channel| + (i + 1) + 1, channel[i + 1]);
    }
  }

  lemma TakeKeepsClients(o: Output, sent: seq<SentFrame>, consumed: int, clients: map<nat, Client>)
    requires ClientsInv(o, sent, consumed, clients)
    ensures ClientsInv(o, sent, consumed + 1, clients)
  {
    forall k | k in clients ensures ClientInv(o, sent, consumed + 1, clients[k]) {
      assert ClientInv(o, sent, consumed, clients[k]);
    }
  }

  lemma WritePutsOnWire(sent: seq<SentFrame>, d: seq<Delivery>, wire: seq<FrameUpdate>, x: Delivery, u: FrameUpdate)
    requires OnWire(sent, d, wire) && IsUpdate(sent, x.sequence, u)
    ensures OnWire(sent, d + [x], wire + [u])
  {
    var d', wire' := d + [x], wire + [u];
    var at := |d| - |wire|;
    forall j | 0 <= j < |wire'| ensures IsUpdate(sent, d'[|d'| - |wire'| + j].sequence, wire'[j]) {
      if j < |wire| {
        assert d'[at + j] == d[|d| - |wire| + j] && wire'[j] == wire[j];
      } else {
        assert d'[at + j] == x && wire'[j] == u;
      }
    }
  }

  lemma ReadTakesOffWire(sent: seq<SentFrame>, d: seq<Delivery>, wire: seq<FrameUpdate>)
    requires OnWire(sent, d, wire) && wire != []
    ensures OnWire(sent, d, wire[1..])
  {
    var wire' := wire[1..];
    forall j | 0 <= j < |wire'| ensures IsUpdate(sent, d[|d| - |wire'| + j].sequence, wire'[j]) {
      assert IsUpdate(sent, d[|d| - |wire| + (j + 1)].sequence, wire[j + 1]);
    }
  }

  lemma DeliveryKeepsWire(sent: seq<SentFrame>, consumed: int, c: Client, m: CompositorToNet)
    requires DeliveryInv(sent, consumed, c) && 0 <= consumed && IsMessage(sent, consumed + 1, m)
    requires m.frame.sequence == consumed + 1
    ensures DeliveryInv(sent, consumed + 1, Delivered(c, m))
  {
    WritePutsOnWire(sent, c.delivered, c.wire, Delivery(m.frame.sequence, m.SendKeyframe?), m.frame);
  }

  lemma DeliveryKeepsScreen(o: Output, sent: seq<SentFrame>, consumed: int, c: Client, m: CompositorToNet)
    requires DeliveryInv(sent, consumed, c) && ScreenInv(o, sent, c)
    requires InRange(sent, Delivered(c, m).delivered)
    ensures ScreenInv(o, sent, Delivered(c, m))
  {
    var c' := Delivered(c, m);
    var x := c'.delivered[|c.delivered|];
    var n := c.Applied();
    InSyncPrefix(c.delivered, x, n);
    forall row: nat, px: nat | row < o.height && px < o.width ensures PixelFresh(o, sent, c', row, px) {
      assert PixelFresh(o, sent, c, row, px);
      LastCoveringPrefix(sent, c.delivered, x, n, row, px);
    }
  }

  lemma DeliveryKeepsClient(o: Output, sent: seq<SentFrame>, consumed: int, c: Client, m: CompositorToNet)
    requires ClientInv(o, sent, consumed, c) && 0 <= consumed && IsMessage(sent, consumed + 1, m)
    requires m.frame.sequence == consumed + 1
    ensures ClientInv(o, sent, consumed + 1, Delivered(c, m))
  {
    DeliveryKeepsWire(sent, consumed, c, m);
    DeliveryKeepsScreen(o, sent, consumed, c, m);
  }

  lemma ForwardKeepsClients(o: Output, sent: seq<SentFrame>, consumed: int, clients: map<nat, Client>,
                             conn: nat, m: CompositorToNet)
    requires ClientsInv(o, sent, consumed, clients) && conn in clients
    requires 0 <= consumed && IsMessage(sent, consumed + 1, m) && m.frame.sequence == consumed + 1
    ensures ClientsInv(o, sent, consumed + 1, clients[conn := Delivered(clients[conn], m)])
  {
    TakeKeepsClients(o, sent, consumed, clients);
    DeliveryKeepsClient(o, sent, consumed, clients[conn], m);
    ClientKept(o, sent, consumed + 1, clients, conn, Delivered(clients[conn], m));
  }

  lemma ForwardKeepsInv(o: Output, s: System, lost: bool)
    requires Inv(o, s) && Enabled(o, s, Forward(lost))
    ensures Inv(o, AfterForward(s, lost))
  {
    TakeKeepsChannel(s.sent, s.channel);
    TakeKeepsClients(o, s.sent, Consumed(s), s.clients);
    SentNumber(o, s.sent, Consumed(s));
    if s.net.conn in s.clients {
      ForwardKeepsClients(o, s.sent, Consumed(s), s.clients, s.net.conn, s.channel[0]);
    }
  }

  lemma SentNumber(o: Output, sent: seq<SentFrame>, n: nat)
    requires SentInv(o, sent) && n < |sent|
    ensures sent[n].update.sequence == n + 1
  {
    assert SentOk(o, sent, n);
  }

  // ----- the client

  lemma KeyframeApplied(o: Output, sent: seq<SentFrame>, n: nat, fb: seq<byte>, u: FrameUpdate)
    requires SentInv(o, sent) && IsUpdate(sent, n, u) && sent[n - 1].keyframe && o.IsClientBuffer(fb)
    ensures CanApply(o, fb, u) && BufferAfter(o, fb, u) == Shot(sent, n)
  {
    assert SentOk(o, sent, n - 1);
    KeyframeRestores(o, fb, sent[n - 1].pixels, u.sequence);
  }

  lemma DeltaApplied(o: Output, sent: seq<SentFrame>, n: nat, u: FrameUpdate)
    requires SentInv(o, sent) && IsUpdate(sent, n, u) && !sent[n - 1].keyframe
    ensures n > 1 && CanApply(o, Shot(sent, n - 1), u) && BufferAfter(o, Shot(sent, n - 1), u) == Shot(sent, n)
  {
    assert SentOk(o, sent, n - 1);
    DeltaKeepsSync(o, sent[n - 2].pixels, sent[n - 1].pixels, sent[n - 1].boxes, u.sequence);
  }

  lemma UpdateApplied(o: Output, sent: seq<SentFrame>, n: nat, fb: seq<byte>, u: FrameUpdate)
    requires SentInv(o, sent) && IsUpdate(sent, n, u) && o.IsClientBuffer(fb)
    ensures CanApply(o, fb, u) && o.IsClientBuffer(BufferAfter(o, fb, u))
  {
    assert SentOk(o, sent, n - 1);
    UpdateApplies(o, fb, sent[n - 1].pixels, sent[n - 1].boxes, u.sequence);
  }

  lemma PixelApplied(o: Output, sent: seq<SentFrame>, n: nat, fb: seq<byte>, u: FrameUpdate, row: nat, px: nat)
    requires SentInv(o, sent) && IsUpdate(sent, n, u) && o.IsClientBuffer(fb) && CanApply(o, fb, u)
    requires row < o.height && px < o.width
    ensures PixelOf(o, BufferAfter(o, fb, u), row, px)
         == PixelOf(o, if Covered(sent[n - 1].boxes, row, px * 4) then Shot(sent, n) else fb, row, px)
  {
    assert SentOk(o, sent, n - 1);
    UpdatedPixel(o, fb, sent[n - 1].pixels, sent[n - 1].boxes, u.sequence, row, px);
  }

  /** The message the client applies next. */
  lemma NextMessage(sent: seq<SentFrame>, consumed: int, c: Client) returns (n: nat)
    requires DeliveryInv(sent, consumed, c) && c.wire != []
    ensures n == c.delivered[c.Applied()].sequence && IsUpdate(sent, n, c.wire[0])
    ensures c.delivered[c.Applied()].keyframe == sent[n - 1].keyframe
  {
    n := c.delivered[c.Applied()].sequence;
  }

  /** No frame that reaches a client makes it panic. */
  lemma ReceivedFrameApplies(o: Output, sent: seq<SentFrame>, consumed: int, c: Client)
    requires SentInv(o, sent) && ClientInv(o, sent, consumed, c) && c.wire != []
    ensures CanApply(o, c.fb, c.wire[0])
  {
    var n := NextMessage(sent, consumed, c);
    UpdateApplied(o, sent, n, c.fb, c.wire[0]);
  }

  lemma ApplyStaysExact(o: Output, sent: seq<SentFrame>, consumed: int, c: Client)
    requires SentInv(o, sent) && ClientInv(o, sent, consumed, c) && c.wire != [] && CanApply(o, c.fb, c.wire[0])
    requires InSync(c.delivered, c.Applied() + 1)
    ensures BufferAfter(o, c.fb, c.wire[0]) == Shot(sent, c.delivered[c.Applied()].sequence)
  {
    var n := NextMessage(sent, consumed, c);
    if sent[n - 1].keyframe {
      KeyframeApplied(o, sent, n, c.fb, c.wire[0]);
    } else {
      DeltaApplied(o, sent, n, c.wire[0]);
    }
  }

  lemma PixelMoves(o: Output, sent: seq<SentFrame>, c: Client, c': Client, row: nat, px: nat)
    requires InRange(sent, c.delivered) && 0 <= c.Applied() < |c.delivered| && PixelFresh(o, sent, c, row, px)
    requires c'.delivered == c.delivered && c'.Applied() == c.Applied() + 1
    requires var n := c.delivered[c.Applied()].sequence;
             PixelOf(o, c'.fb, row, px)
             == PixelOf(o, if Covered(sent[n - 1].boxes, row, px * 4) then Shot(sent, n) else c.fb, row, px)
    ensures PixelFresh(o, sent, c', row, px)
  {
  }

  lemma ApplyPixel(o: Output, sent: seq<SentFrame>, c: Client, row: nat, px: nat)
    requires SentInv(o, sent) && c.wire != [] && |c.wire| <= |c.delivered| && CanApply(o, c.fb, c.wire[0])
    requires InRange(sent, c.delivered) && IsUpdate(sent, c.delivered[c.Applied()].sequence, c.wire[0])
    requires row < o.height && px < o.width && PixelFresh(o, sent, c, row, px)
    ensures PixelFresh(o, sent, AfterApply(o, c), row, px)
  {
    PixelApplied(o, sent, c.delivered[c.Applied()].sequence, c.fb, c.wire[0], row, px);
    PixelMoves(o, sent, c, AfterApply(o, c), row, px);
  }

  lemma ApplyStaysFresh(o: Output, sent: seq<SentFrame>, consumed: int, c: Client)
    requires SentInv(o, sent) && ClientInv(o, sent, consumed, c) && c.wire != [] && CanApply(o, c.fb, c.wire[0])
    requires InRange(sent, AfterApply(o, c).delivered)
    ensures Fresh(o, sent, AfterApply(o, c))
  {
    var _ := NextMessage(sent, consumed, c);
    forall row: nat, px: nat | row < o.height && px < o.width ensures PixelFresh(o, sent, AfterApply(o, c), row, px) {
      assert PixelFresh(o, sent, c, row, px);
      ApplyPixel(o, sent, c, row, px);
    }
  }

  lemma CheckStaysSpaced(checks: seq<Check>, pending: bool, ok: bool)
    requires RequestsSpaced(checks) && pending == PendingAfter(checks)
    ensures var checks' := checks + [if ok then Matched else if pending then Waited else Asked];
            RequestsSpaced(checks') && PendingAfter(checks') == !ok
  {
    var n := |checks|;
    var checks' := checks + [if ok then Matched else if pending then Waited else Asked];
    forall i, j | 0 <= i < j < |checks'| && checks'[i].Asked? && checks'[j].Asked?
      ensures exists k :: i < k < j && checks'[k].Matched?
    {
      if j < n {
        var k :| i < k < j && checks[k].Matched?;
        assert checks'[k].Matched?;
      } else {
        assert !pending && checks'[n - 1].Matched?;
      }
    }
  }

  lemma ApplyKeepsScreen(o: Output, sent: seq<SentFrame>, consumed: int, c: Client)
    requires SentInv(o, sent) && ClientInv(o, sent, consumed, c) && c.wire != [] && CanApply(o, c.fb, c.wire[0])
    requires InRange(sent, AfterApply(o, c).delivered)
    ensures ScreenInv(o, sent, AfterApply(o, c))
  {
    var c' := AfterApply(o, c);
    if InSync(c'.delivered, c'.Applied()) {
      ApplyStaysExact(o, sent, consumed, c);
    }
    ApplyStaysFresh(o, sent, consumed, c);
  }

  lemma ApplyKeepsClient(o: Output, sent: seq<SentFrame>, consumed: int, c: Client)
    requires SentInv(o, sent) && ClientInv(o, sent, consumed, c) && c.wire != [] && CanApply(o, c.fb, c.wire[0])
    ensures ClientInv(o, sent, consumed, AfterApply(o, c))
  {
    ReadTakesOffWire(sent, c.delivered, c.wire);
    ApplyKeepsScreen(o, sent, consumed, c);
    CheckStaysSpaced(c.checks, c.keyframePending, Matches(o, BufferAfter(o, c.fb, c.wire[0]), c.wire[0]));
  }

  lemma DiscardKeepsInv(o: Output, s: System)
    requires Inv(o, s) && Enabled(o, s, Discard)
    ensures Inv(o, Next(o, s, Discard))
  {
    TakeKeepsChannel(s.sent, s.channel);
    TakeKeepsClients(o, s.sent, Consumed(s), s.clients);
  }

  lemma ApplyKeepsClients(o: Output, sent: seq<SentFrame>, consumed: int, clients: map<nat, Client>, conn: nat)
    requires SentInv(o, sent) && ClientsInv(o, sent, consumed, clients) && conn in clients && clients[conn].wire != []
    ensures CanApply(o, clients[conn].fb, clients[conn].wire[0])
    ensures ClientsInv(o, sent, consumed, clients[conn := AfterApply(o, clients[conn])])
  {
    ReceivedFrameApplies(o, sent, consumed, clients[conn]);
    ApplyKeepsClient(o, sent, consumed, clients[conn]);
    ClientKept(o, sent, consumed, clients, conn, AfterApply(o, clients[conn]));
  }

  lemma ApplyKeepsInv(o: Output, s: System, conn: nat)
    requires Inv(o, s) && Enabled(o, s, Apply(conn))
    ensures Safe(o, s, Apply(conn)) && Inv(o, Next(o, s, Apply(conn)))
  {
    ApplyKeepsClients(o, s.sent, Consumed(s), s.clients, conn);
  }

  lemma RelayKeepsClients(o: Output, sent: seq<SentFrame>, consumed: int, clients: map<nat, Client>, conn: nat)
    requires ClientsInv(o, sent, consumed, clients) && conn in clients && clients[conn].requests > 0
    ensures ClientsInv(o, sent, consumed, clients[conn := Relayed(clients[conn])])
  {
    RelayKeepsClient(o, sent, consumed, clients[conn]);
    ClientKept(o, sent, consumed, clients, conn, Relayed(clients[conn]));
  }

  lemma RelayKeepsInv(o: Output, s: System, conn: nat)
    requires Inv(o, s) && Enabled(o, s, Relay(conn))
    ensures Inv(o, AfterRelay(s, conn))
  {
    RelayKeepsClients(o, s.sent, Consumed(s), s.clients, conn);
  }

  /** No step can panic a client, and every step keeps the invariant. */
  lemma StepKeepsInv(o: Output, s: System, step: Step)
    requires Inv(o, s) && Enabled(o, s, step)
    ensures Safe(o, s, step) && Inv(o, Next(o, s, step))
  {
    match step {
      case Render(pixels, damage) => RenderKeepsInv(o, s, pixels, damage);
      case NetWake(w) => WakeKeepsInv(o, s, w);
      case Drain(bind) => DrainKeepsInv(o, s, bind);
      case Forward(lost) => ForwardKeepsInv(o, s, lost);
      case Discard => DiscardKeepsInv(o, s);
      case Apply(conn) => ApplyKeepsInv(o, s, conn);
      case Relay(conn) => RelayKeepsInv(o, s, conn);
    }
  }
}
