/**
 The display protocol end to end: compositor, message channel, network thread and any number
 of clients, as one transition system. Frames may be rendered at any time, clients may come,
 be preempted and go at any time, messages left over from an earlier connection stay in the
 channel, and a forwarded frame may be lost.
 */
module Resync {
  import opened Bytes
  import opened Encoding
  import opened Regions
  import opened Display
  import opened Pictures
  import opened NetworkLoop

  /** A frame that was sent: the message, the rendered buffer it was made from and the visible
      part of it, and how many clients had been bound by then. Message number `n` is entry
      `n - 1` of the send order. */
  datatype SentFrame = SentFrame(
    update: FrameUpdate,
    pixels: seq<byte>,
    picture: seq<byte>,
    boxes: seq<Box>,
    keyframe: bool,
    bind: nat)

  /** A frame written to a client's display stream. */
  datatype Delivery = Delivery(sequence: nat, keyframe: bool)

  /** How a client judged a frame it applied: checksum right, or wrong and asking for a
      keyframe, or wrong and already waiting for one. */
  datatype Check = Matched | Asked | Waited

  datatype Client = Client(
    fb: seq<byte>,
    keyframePending: bool,
    /** keyframe requests not yet read by the server */
    requests: nat,
    checks: seq<Check>,
    delivered: seq<Delivery>,
    /** what of `delivered` is still under way */
    wire: seq<FrameUpdate>)
  {
    function Applied(): int { |delivered| - |wire| }
  }

  datatype System = System(
    enc: EncoderState,
    lastRender: seq<byte>,
    sent: seq<SentFrame>,
    channel: seq<CompositorToNet>,
    net: Net,
    accepted: nat,
    events: seq<NetToCompositor>,
    bound: set<nat>,
    binds: nat,
    clients: map<nat, Client>)

  datatype Step =
    | Render(pixels: seq<byte>, damage: Damage)
    | NetWake(w: Wakeup)
    /** the compositor reads an event; a connect is answered by binding or by redirecting */
    | Drain(bind: bool)
    /** the serving connection takes a message off the channel; its write may vanish */
    | Forward(lost: bool)
    /** the idle loop empties the channel */
    | Discard
    | Apply(conn: nat)
    | Relay(conn: nat)

  ghost predicate Init(o: Output, s: System) {
    && o.Valid() && o.IsPicture(s.lastRender) && o.IsPicture(s.enc.previousFrame)
    && s.enc == EncoderState(s.enc.previousFrame, false, 0, 0, false)
    && s.sent == [] && s.channel == [] && s.net == Idle && s.accepted == 0
    && s.events == [] && s.bound == {} && s.binds == 0 && s.clients == map[]
  }

  ghost predicate Enabled(o: Output, s: System, step: Step) {
    match step
    case Render(pixels, damage) =>
      && o.Valid() && o.IsPicture(pixels) && o.IsPicture(s.lastRender)
      && Encodable(o, SendsKeyframe(s.enc), damage) && DamageCovers(o, s.lastRender, pixels, damage)
    // requests for keyframes come from the clients, see Relay
    case NetWake(w) => Possible(s.net, w) && !w.KeyframeAsked? && (w.Bound? ==> s.net.conn in s.bound)
    case Drain(_) => s.events != []
    case Forward(_) => s.net.Serving? && s.channel != []
    case Discard => s.net.Idle? && s.channel != []
    case Apply(conn) => conn in s.clients && s.clients[conn].wire != []
    case Relay(conn) => s.net.Serving? && s.net.conn == conn && conn in s.clients && s.clients[conn].requests > 0
  }

  /** The only way a step can go wrong: the client would panic on the frame it received. */
  ghost predicate Safe(o: Output, s: System, step: Step) {
    step.Apply? && Enabled(o, s, step) ==>
      CanApply(o, s.clients[step.conn].fb, s.clients[step.conn].wire[0])
  }

  ghost function Next(o: Output, s: System, step: Step): System
    requires Enabled(o, s, step) && Safe(o, s, step)
  {
    match step
    case Render(pixels, damage) => AfterRender(o, s, pixels, damage)
    case NetWake(w) => AfterWake(o, s, w)
    case Drain(bind) => AfterDrain(s, bind)
    case Forward(lost) => AfterForward(s, lost)
    case Discard => s.(channel := s.channel[1..])
    case Apply(conn) => s.(clients := s.clients[conn := AfterApply(o, s.clients[conn])])
    case Relay(conn) => AfterRelay(s, conn)
  }

  function Relayed(c: Client): Client
    requires c.requests > 0
  {
    c.(requests := c.requests - 1)
  }

  ghost function AfterRelay(s: System, conn: nat): System
    requires s.net.Serving? && conn in s.clients && s.clients[conn].requests > 0
  {
    s.(clients := s.clients[conn := Relayed(s.clients[conn])], events := s.events + Emitted(s.net, KeyframeAsked))
  }

  ghost function AfterRender(o: Output, s: System, pixels: seq<byte>, damage: Damage): System
    requires o.Valid() && o.IsPicture(pixels)
  {
    if !s.enc.clientConnected || Skips(s.enc, pixels) then s.(lastRender := pixels)
    else
      s.(lastRender := pixels,
         enc := EncoderAfter(s.enc, pixels),
         sent := s.sent + [NewFrame(o, s, pixels, damage)],
         channel := s.channel + [MessageFor(o, s.enc, pixels, damage)])
  }

  /** What is recorded about a frame that is sent. */
  ghost function NewFrame(o: Output, s: System, pixels: seq<byte>, damage: Damage): SentFrame
    requires o.Valid() && o.IsPicture(pixels) && !Skips(s.enc, pixels)
  {
    var keyframe := SendsKeyframe(s.enc);
    SentFrame(MessageFor(o, s.enc, pixels, damage).frame, pixels, Picture(o, pixels),
              FrameBoxes(o, keyframe, damage), keyframe, s.binds)
  }

  ghost function Black(o: Output): (fb: seq<byte>)
    ensures o.IsClientBuffer(fb)
  {
    seq(RowStart(o.width * 4, o.height), _ => 0)
  }

  ghost function AfterWake(o: Output, s: System, w: Wakeup): System
    requires Possible(s.net, w)
  {
    s.(net := NextNet(s.net, s.accepted, w),
       accepted := s.accepted + (if w.Routed? then 1 else 0),
       events := s.events + Emitted(s.net, w),
       clients := if w.Bound? then s.clients[s.net.conn := Client(Black(o), false, 0, [], [], [])] else s.clients)
  }

  ghost function AfterDrain(s: System, bind: bool): System
    requires s.events != []
  {
    var rest := s.(events := s.events[1..]);
    match s.events[0]
    case ClientConnected(conn, _) =>
      if bind then rest.(enc := BoundEncoder(s.enc), bound := s.bound + {conn}, binds := s.binds + 1) else rest
    case ClientDisconnected => rest.(enc := s.enc.(clientConnected := false))
    case RequestKeyframe => rest.(enc := s.enc.(forceKeyframe := true))
  }

  function Delivered(c: Client, m: CompositorToNet): Client {
    c.(delivered := c.delivered + [Delivery(m.frame.sequence, m.SendKeyframe?)], wire := c.wire + [m.frame])
  }

  ghost function AfterForward(s: System, lost: bool): System
    requires s.net.Serving? && s.channel != []
  {
    var m := s.channel[0];
    var seen := Opens(s.net.keyframeSeen, m);
    s.(channel := s.channel[1..],
       net := s.net.(keyframeSeen := seen),
       clients := if seen && s.net.display && !lost && s.net.conn in s.clients
                  then s.clients[s.net.conn := Delivered(s.clients[s.net.conn], m)] else s.clients)
  }

  ghost function AfterApply(o: Output, c: Client): Client
    requires c.wire != [] && CanApply(o, c.fb, c.wire[0])
  {
    var fb := BufferAfter(o, c.fb, c.wire[0]);
    var ok := Matches(o, fb, c.wire[0]);
    c.(fb := fb, wire := c.wire[1..], keyframePending := !ok,
       requests := if !ok && !c.keyframePending then c.requests + 1 else c.requests,
       checks := c.checks + [if ok then Matched else if c.keyframePending then Waited else Asked])
  }

  // ----- the invariant

  /** Deltas sent since the last keyframe. */
  ghost function DeltasSince(sent: seq<SentFrame>): nat {
    if sent == [] || sent[|sent| - 1].keyframe then 0 else DeltasSince(sent[..|sent| - 1]) + 1
  }

  ghost predicate GoodFrame(o: Output, f: SentFrame) {
    o.Valid() && o.IsPicture(f.pixels) && AllOnOutput(f.boxes, o.width, o.height)
    && f.picture == Picture(o, f.pixels)
    && f.update == UpdateOf(o, f.pixels, f.boxes, f.update.sequence)
    && (f.keyframe ==> f.boxes == [o.Full()])
  }

  /** A delta covers what changed since the frame sent before it, to the same bind. */
  ghost predicate Follows(o: Output, before: SentFrame, f: SentFrame) {
    && GoodFrame(o, before) && GoodFrame(o, f)
    && (!f.keyframe ==> f.bind == before.bind && CoversChange(o, before.pixels, f.pixels, f.boxes))
  }

  /** Entry `n` of the send order: its number, and how it continues what was sent before. */
  ghost predicate SentOk(o: Output, sent: seq<SentFrame>, n: nat)
    requires n < |sent|
  {
    && GoodFrame(o, sent[n])
    && sent[n].update.sequence == n + 1
    && (if n == 0 then sent[n].keyframe else Follows(o, sent[n - 1], sent[n]))
    && DeltasSince(sent[..n + 1]) <= KEYFRAME_INTERVAL
  }

  ghost predicate SentInv(o: Output, sent: seq<SentFrame>) {
    forall n: nat :: n < |sent| ==> SentOk(o, sent, n)
  }

  ghost predicate EncInv(o: Output, s: System) {
    && o.Valid() && o.IsPicture(s.enc.previousFrame) && o.IsPicture(s.lastRender)
    && s.enc.frameSequence == |s.sent|
    && s.enc.framesSinceKeyframe == DeltasSince(s.sent)
    && (s.enc.clientConnected && !s.enc.forceKeyframe ==>
          && s.sent != []
          && s.enc.previousFrame == s.lastRender == s.sent[|s.sent| - 1].pixels
          && s.sent[|s.sent| - 1].bind == s.binds)
  }

  ghost predicate IsUpdate(sent: seq<SentFrame>, n: nat, u: FrameUpdate) {
    1 <= n <= |sent| && u == sent[n - 1].update
  }

  ghost predicate IsMessage(sent: seq<SentFrame>, n: nat, m: CompositorToNet) {
    1 <= n <= |sent| && m == Tagged(sent[n - 1].keyframe, sent[n - 1].update)
  }

  /** The channel holds the last messages sent, all of them and in order. */
  ghost predicate ChannelInv(sent: seq<SentFrame>, channel: seq<CompositorToNet>) {
    && |channel| <= |sent|
    && forall i :: 0 <= i < |channel| ==> IsMessage(sent, |sent| - |channel| + i + 1, channel[i])
  }

  function Consumed(s: System): int { |s.sent| - |s.channel| }

  /** The last of the first `n` deliveries is a keyframe, or continues one without a gap. */
  ghost predicate InSync(delivered: seq<Delivery>, n: nat)
    requires n <= |delivered|
  {
    n > 0 && (delivered[n - 1].keyframe ||
              (n > 1 && delivered[n - 2].sequence + 1 == delivered[n - 1].sequence && InSync(delivered, n - 1)))
  }

  /** Index of the last keyframe among the first `n` deliveries, or -1. */
  ghost function LastKeyframe(delivered: seq<Delivery>, n: nat): (k: int)
    requires n <= |delivered|
    ensures -1 <= k < n
  {
    if n == 0 then -1 else if delivered[n - 1].keyframe then n - 1 else LastKeyframe(delivered, n - 1)
  }

  /** The picture of message `n`. */
  function Shot(sent: seq<SentFrame>, n: nat): seq<byte>
    requires 1 <= n <= |sent|
  {
    sent[n - 1].picture
  }

  ghost predicate InRange(sent: seq<SentFrame>, delivered: seq<Delivery>) {
    forall j :: 0 <= j < |delivered| ==>
      && 1 <= delivered[j].sequence <= |sent|
      && delivered[j].keyframe == sent[delivered[j].sequence - 1].keyframe
  }

  /** Index of the last of the first `n` deliveries whose frame carries the pixel, or -1. */
  ghost function LastCovering(sent: seq<SentFrame>, delivered: seq<Delivery>, n: nat, row: nat, px: nat): (k: int)
    requires InRange(sent, delivered) && n <= |delivered|
    ensures -1 <= k < n
  {
    if n == 0 then -1
    else if Covered(sent[delivered[n - 1].sequence - 1].boxes, row, px * 4) then n - 1
    else LastCovering(sent, delivered, n - 1, row, px)
  }

  /** One pixel of the client's screen: as in the last applied frame that carries it, or black. */
  ghost predicate PixelFresh(o: Output, sent: seq<SentFrame>, c: Client, row: nat, px: nat)
    requires InRange(sent, c.delivered) && 0 <= c.Applied()
  {
    var k := LastCovering(sent, c.delivered, c.Applied(), row, px);
    PixelOf(o, c.fb, row, px) == PixelOf(o, if k < 0 then Black(o) else Shot(sent, c.delivered[k].sequence), row, px)
  }

  ghost predicate Fresh(o: Output, sent: seq<SentFrame>, c: Client)
    requires InRange(sent, c.delivered) && 0 <= c.Applied()
  {
    forall row: nat, px: nat :: row < o.height && px < o.width ==> PixelFresh(o, sent, c, row, px)
  }

  /** The client shows exactly the frame it applied last. */
  ghost predicate Exact(sent: seq<SentFrame>, c: Client)
    requires InRange(sent, c.delivered) && 0 < c.Applied()
  {
    c.fb == Shot(sent, c.delivered[c.Applied() - 1].sequence)
  }

  predicate PendingAfter(checks: seq<Check>) {
    checks != [] && !checks[|checks| - 1].Matched?
  }

  /** Between two requests for a keyframe some frame matched. */
  ghost predicate RequestsSpaced(checks: seq<Check>) {
    forall i, j :: 0 <= i < j < |checks| && checks[i].Asked? && checks[j].Asked? ==>
      exists k :: i < k < j && checks[k].Matched?
  }

  /** What is under way is the tail of what was written. */
  ghost predicate OnWire(sent: seq<SentFrame>, delivered: seq<Delivery>, wire: seq<FrameUpdate>) {
    |wire| <= |delivered|
    && forall j :: 0 <= j < |wire| ==> IsUpdate(sent, delivered[|delivered| - |wire| + j].sequence, wire[j])
  }

  /** Messages are written in the order they were sent, none twice. */
  ghost predicate InOrder(delivered: seq<Delivery>, consumed: int) {
    && (forall j :: 0 <= j < |delivered| ==> delivered[j].sequence <= consumed)
    && (forall i, j :: 0 <= i < j < |delivered| ==> delivered[i].sequence < delivered[j].sequence)
  }

  ghost predicate DeliveryInv(sent: seq<SentFrame>, consumed: int, c: Client) {
    && InRange(sent, c.delivered)
    && InOrder(c.delivered, consumed)
    && OnWire(sent, c.delivered, c.wire)
  }

  ghost predicate ScreenInv(o: Output, sent: seq<SentFrame>, c: Client)
    requires InRange(sent, c.delivered) && 0 <= c.Applied()
  {
    && o.IsClientBuffer(c.fb)
    && (InSync(c.delivered, c.Applied()) ==> Exact(sent, c))
    && Fresh(o, sent, c)
  }

  ghost predicate CheckInv(c: Client) {
    && c.keyframePending == PendingAfter(c.checks)
    && RequestsSpaced(c.checks)
  }

  ghost predicate ClientInv(o: Output, sent: seq<SentFrame>, consumed: int, c: Client) {
    DeliveryInv(sent, consumed, c) && ScreenInv(o, sent, c) && CheckInv(c)
  }

  ghost predicate ClientsInv(o: Output, sent: seq<SentFrame>, consumed: int, clients: map<nat, Client>) {
    forall k :: k in clients ==> ClientInv(o, sent, consumed, clients[k])
  }

  ghost predicate Inv(o: Output, s: System) {
    && EncInv(o, s) && SentInv(o, s.sent) && ChannelInv(s.sent, s.channel)
    && ClientsInv(o, s.sent, Consumed(s), s.clients)
  }
}
