/**
 The two ends of the display stream and the gate between them: the compositor turns rendered
 frames into keyframes and deltas, the network thread withholds deltas from a connection that
 has not had a keyframe, and the client copies regions into its framebuffer and asks for a
 keyframe when its checksum disagrees.
 */
module Display {
  import opened Bytes
  import opened Encoding
  import opened Geometry
  import opened Regions
  import C = Checksum

  /** The server's output. Rows of its buffer are `stride` bytes apart, possibly padded;
      rows of a client's buffer are not padded. */
  datatype Output = Output(width: nat, height: nat, stride: nat) {
    ghost predicate Valid() { 0 < width && 0 < height && width * 4 <= stride }
    ghost predicate IsPicture(pixels: seq<byte>) { IsFrame(|pixels|, width, height, stride) }
    ghost predicate IsClientBuffer(fb: seq<byte>) { IsFrame(|fb|, width, height, width * 4) }
    function Full(): Box { Box(0, 0, width, height) }
  }

  lemma PictureShows(o: Output, pixels: seq<byte>)
    requires o.Valid() && o.IsPicture(pixels)
    ensures C.Shows(|pixels|, o.stride, o.width, o.height)
  {
    OnOutputFits(o.Full(), o.width, o.height, o.stride);
  }

  lemma ClientBufferShows(o: Output, fb: seq<byte>)
    requires o.Valid() && o.IsClientBuffer(fb)
    ensures C.Shows(|fb|, o.width * 4, o.width, o.height)
  {
    OnOutputFits(o.Full(), o.width, o.height, o.width * 4);
  }

  /** The visible bytes of a rendered frame: what a client in sync holds. */
  ghost function Picture(o: Output, pixels: seq<byte>): (s: seq<byte>)
    requires o.Valid() && o.IsPicture(pixels)
    ensures o.IsClientBuffer(s)
  {
    PictureShows(o, pixels);
    C.Visible(pixels, o.stride, o.width, o.height)
  }

  datatype FrameUpdate = FrameUpdate(sequence: nat, regions: seq<DamageRegion>, checksum: bv32)

  datatype CompositorToNet = SendFrame(frame: FrameUpdate) | SendKeyframe(frame: FrameUpdate)

  /** What the renderer says changed since the frame it rendered before. */
  datatype Damage = Unknown | Known(rects: seq<Rect>)

  /** Delta frames between keyframes. */
  const KEYFRAME_INTERVAL: nat := 120

  // ----- the compositor

  datatype EncoderState = EncoderState(
    previousFrame: seq<byte>,
    forceKeyframe: bool,
    framesSinceKeyframe: nat,
    frameSequence: nat,
    clientConnected: bool)

  /** Every rectangle that is going to be cut out of the frame can be (see `ClampInBoundsIff`). */
  ghost predicate Encodable(o: Output, keyframe: bool, damage: Damage) {
    damage.Known? && !keyframe ==>
      forall i :: 0 <= i < |damage.rects| ==> Slices(o, damage.rects[i])
  }

  ghost predicate Slices(o: Output, r: Rect) {
    InBounds(RowStart(o.stride, o.height), o.stride, Clamp(r, o.width, o.height))
  }

  predicate Skips(e: EncoderState, pixels: seq<byte>) {
    !e.forceKeyframe && pixels == e.previousFrame
  }

  predicate SendsKeyframe(e: EncoderState) {
    e.forceKeyframe || e.framesSinceKeyframe >= KEYFRAME_INTERVAL
  }

  function FrameBoxes(o: Output, keyframe: bool, damage: Damage): seq<Box> {
    if damage.Known? && damage.rects != [] && !keyframe
    then DamageBoxes(damage.rects, o.width, o.height)
    else [o.Full()]
  }

  ghost function UpdateOf(o: Output, pixels: seq<byte>, boxes: seq<Box>, sequence: nat): FrameUpdate
    requires o.Valid() && o.IsPicture(pixels) && AllOnOutput(boxes, o.width, o.height)
  {
    PictureShows(o, pixels);
    FrameUpdate(sequence, EncodedAll(pixels, o.width, o.height, o.stride, boxes),
                C.Checksum(pixels, o.stride, o.width, o.height))
  }

  ghost function Tagged(keyframe: bool, u: FrameUpdate): CompositorToNet {
    if keyframe then SendKeyframe(u) else SendFrame(u)
  }

  lemma FrameBoxesOnOutput(o: Output, keyframe: bool, damage: Damage)
    ensures AllOnOutput(FrameBoxes(o, keyframe, damage), o.width, o.height)
  {
    if damage.Known? {
      DamageBoxesOnOutput(damage.rects, o.width, o.height);
    }
  }

  function EncoderAfter(e: EncoderState, pixels: seq<byte>): EncoderState {
    if Skips(e, pixels) then e
    else e.(previousFrame := pixels, forceKeyframe := false, frameSequence := e.frameSequence + 1,
            framesSinceKeyframe := if SendsKeyframe(e) then 0 else e.framesSinceKeyframe + 1)
  }

  ghost function MessageFor(o: Output, e: EncoderState, pixels: seq<byte>, damage: Damage): CompositorToNet
    requires o.Valid() && o.IsPicture(pixels) && !Skips(e, pixels)
  {
    FrameBoxesOnOutput(o, SendsKeyframe(e), damage);
    Tagged(SendsKeyframe(e), UpdateOf(o, pixels, FrameBoxes(o, SendsKeyframe(e), damage), e.frameSequence + 1))
  }

  /** A client was bound: it starts from black, so the next frame must be whole. */
  function BoundEncoder(e: EncoderState): EncoderState {
    e.(previousFrame := seq(|e.previousFrame|, _ => 0), forceKeyframe := true, clientConnected := true)
  }

  class Compositor {
    const output: Output
    var previousFrame: seq<byte>
    var forceKeyframe: bool
    var framesSinceKeyframe: nat
    var frameSequence: nat
    var clientConnected: bool
    /** Messages sent to the network thread so far. */
    var tx: seq<CompositorToNet>

    constructor (o: Output)
      requires o.Valid()
      ensures output == o && tx == [] && o.IsPicture(previousFrame)
      ensures State() == EncoderState(previousFrame, false, 0, 0, false)
      ensures forall i :: 0 <= i < |previousFrame| ==> previousFrame[i] == 0
    {
      RowStartIsProduct(o.stride, o.height);
      output, tx := o, [];
      previousFrame := seq(o.height * o.stride, _ => 0);
      forceKeyframe, framesSinceKeyframe, frameSequence, clientConnected := false, 0, 0, false;
    }

    function State(): EncoderState
      reads this
    {
      EncoderState(previousFrame, forceKeyframe, framesSinceKeyframe, frameSequence, clientConnected)
    }

    method OnClientBound()
      modifies this
      ensures State() == BoundEncoder(old(State())) && tx == old(tx)
    {
      previousFrame := seq(|previousFrame|, _ => 0);
      forceKeyframe := true;
      clientConnected := true;
    }

    method OnClientDisconnected()
      modifies this
      ensures State() == old(State()).(clientConnected := false) && tx == old(tx)
    {
      clientConnected := false;
    }

    method OnRequestKeyframe()
      modifies this
      ensures State() == old(State()).(forceKeyframe := true) && tx == old(tx)
    {
      forceKeyframe := true;
    }

    method EncodeBoxes(pixels: seq<byte>, boxes: seq<Box>) returns (rs: seq<DamageRegion>)
      requires output.IsPicture(pixels) && AllOnOutput(boxes, output.width, output.height)
      ensures rs == EncodedAll(pixels, output.width, output.height, output.stride, boxes)
    {
      rs := [];
      var i := 0;
      while i < |boxes|
        invariant 0 <= i <= |boxes|
        invariant rs == EncodedAll(pixels, output.width, output.height, output.stride, boxes[..i])
      {
        OnOutputFits(boxes[i], output.width, output.height, output.stride);
        assert boxes[..i + 1][..i] == boxes[..i];
        var r := EncodeRegion(pixels, output.stride, boxes[i]);
        rs := rs + [r];
        i := i + 1;
      }
      assert boxes[..i] == boxes;
    }

    /** The regions of a delta: every rectangle is cut out first, empty regions are dropped after. */
    method EncodeDamage(pixels: seq<byte>, rects: seq<Rect>) returns (rs: seq<DamageRegion>)
      requires output.Valid() && output.IsPicture(pixels) && Encodable(output, false, Known(rects))
      ensures AllOnOutput(DamageBoxes(rects, output.width, output.height), output.width, output.height)
      ensures rs == EncodedAll(pixels, output.width, output.height, output.stride,
                               DamageBoxes(rects, output.width, output.height))
    {
      rs := [];
      var i := 0;
      while i < |rects|
        invariant 0 <= i <= |rects|
        invariant AllOnOutput(DamageBoxes(rects[..i], output.width, output.height), output.width, output.height)
        invariant rs == EncodedAll(pixels, output.width, output.height, output.stride,
                                   DamageBoxes(rects[..i], output.width, output.height))
      {
        var b := Clamp(rects[i], output.width, output.height);
        assert Slices(output, rects[i]);
        var r := EncodeRegion(pixels, output.stride, b);
        assert rects[..i + 1][..i] == rects[..i];
        ghost var before := DamageBoxes(rects[..i], output.width, output.height);
        ghost var after := DamageBoxes(rects[..i + 1], output.width, output.height);
        DamageBoxesOnOutput(rects[..i + 1], output.width, output.height);
        if r.box.width > 0 && r.box.height > 0 {
          assert after == before + [b];
          assert after[..|after| - 1] == before;
          rs := rs + [r];
        } else {
          assert after == before;
        }
        i := i + 1;
      }
      assert rects[..i] == rects;
    }

    method EncodeFrame(pixels: seq<byte>, damage: Damage, keyframe: bool) returns (rs: seq<DamageRegion>)
      requires output.Valid() && output.IsPicture(pixels) && Encodable(output, keyframe, damage)
      ensures AllOnOutput(FrameBoxes(output, keyframe, damage), output.width, output.height)
      ensures rs == EncodedAll(pixels, output.width, output.height, output.stride, FrameBoxes(output, keyframe, damage))
    {
      if damage.Known? && damage.rects != [] && !keyframe {
        rs := EncodeDamage(pixels, damage.rects);
      } else {
        rs := EncodeBoxes(pixels, [output.Full()]);
      }
    }

    method EncodeUpdate(pixels: seq<byte>, damage: Damage, keyframe: bool, sequence: nat) returns (u: FrameUpdate)
      requires output.Valid() && output.IsPicture(pixels) && Encodable(output, keyframe, damage)
      ensures AllOnOutput(FrameBoxes(output, keyframe, damage), output.width, output.height)
      ensures u == UpdateOf(output, pixels, FrameBoxes(output, keyframe, damage), sequence)
    {
      var regions := EncodeFrame(pixels, damage, keyframe);
      PictureShows(output, pixels);
      var checksum := C.ComputeChecksum(pixels, output.stride, output.width, output.height);
      u := FrameUpdate(sequence, regions, checksum);
    }

    /** The end of a frame: the keyframe flag and count, the message, the new base for the next one. */
    method Send(update: FrameUpdate, pixels: seq<byte>)
      modifies this
      ensures State() == old(State()).(previousFrame := pixels, forceKeyframe := false, frameSequence := old(frameSequence) + 1,
                                       framesSinceKeyframe := if old(forceKeyframe) then 0 else old(framesSinceKeyframe) + 1)
      ensures tx == old(tx) + [if old(forceKeyframe) then SendKeyframe(update) else SendFrame(update)]
    {
      var isKeyframe := forceKeyframe;
      forceKeyframe := false;
      if isKeyframe {
        framesSinceKeyframe := 0;
      } else {
        framesSinceKeyframe := framesSinceKeyframe + 1;
      }
      frameSequence := frameSequence + 1;
      tx := tx + [if isKeyframe then SendKeyframe(update) else SendFrame(update)];
      previousFrame := pixels;
    }

    method SendFrameToNetwork(pixels: seq<byte>, damage: Damage)
      requires output.Valid() && output.IsPicture(pixels)
      requires !Skips(State(), pixels) ==> Encodable(output, SendsKeyframe(State()), damage)
      modifies this
      ensures State() == EncoderAfter(old(State()), pixels)
      ensures tx == if Skips(old(State()), pixels) then old(tx)
                    else old(tx) + [MessageFor(output, old(State()), pixels, damage)]
    {
      if !forceKeyframe && pixels == previousFrame {
        return;
      }
      if framesSinceKeyframe >= KEYFRAME_INTERVAL {
        forceKeyframe := true;
      }
      var update := EncodeUpdate(pixels, damage, forceKeyframe, frameSequence + 1);
      Send(update, pixels);
    }
  }

  // ----- the network thread's gate

  predicate Opens(seen: bool, m: CompositorToNet) {
    seen || m.SendKeyframe?
  }

  /** The frames of a run of messages that reach the client's display stream. */
  function Forwarded(display: bool, seen: bool, ms: seq<CompositorToNet>): seq<FrameUpdate>
    decreases |ms|
  {
    if ms == [] then []
    else (if display && Opens(seen, ms[0]) then [ms[0].frame] else [])
         + Forwarded(display, Opens(seen, ms[0]), ms[1..])
  }

  function SeenAfter(seen: bool, ms: seq<CompositorToNet>): bool
    decreases |ms|
  {
    if ms == [] then seen else SeenAfter(Opens(seen, ms[0]), ms[1..])
  }

  class Relay {
    const display: bool
    var keyframeSeen: bool
    var displayStream: seq<FrameUpdate>

    constructor (display: bool)
      ensures this.display == display && !keyframeSeen && displayStream == []
    {
      this.display, keyframeSeen, displayStream := display, false, [];
    }

    /** Forward everything that is waiting in the channel. */
    method CheckCompositorCommands(rx: seq<CompositorToNet>)
      modifies this
      ensures displayStream == old(displayStream) + Forwarded(display, old(keyframeSeen), rx)
      ensures keyframeSeen == SeenAfter(old(keyframeSeen), rx)
    {
      var rest := rx;
      while rest != []
        invariant displayStream + Forwarded(display, keyframeSeen, rest)
               == old(displayStream) + Forwarded(display, old(keyframeSeen), rx)
        invariant SeenAfter(keyframeSeen, rest) == SeenAfter(old(keyframeSeen), rx)
        decreases |rest|
      {
        var m := rest[0];
        rest := rest[1..];
        match m {
          case SendFrame(frame) =>
            if !keyframeSeen {
              continue;
            }
            if !display {
              continue;
            }
            displayStream := displayStream + [frame];
          case SendKeyframe(frame) =>
            keyframeSeen := true;
            if !display {
              continue;
            }
            displayStream := displayStream + [frame];
        }
      }
    }
  }

  ghost function FramesOf(ms: seq<CompositorToNet>): seq<FrameUpdate> {
    if ms == [] then [] else [ms[0].frame] + FramesOf(ms[1..])
  }

  /** A connection gets exactly what follows the first keyframe, from that keyframe on. */
  lemma {:induction false} GateOpensAtKeyframe(ms: seq<CompositorToNet>, k: nat)
    requires k <= |ms| && (k < |ms| ==> ms[k].SendKeyframe?)
    requires forall i :: 0 <= i < k ==> ms[i].SendFrame?
    ensures Forwarded(true, false, ms) == FramesOf(ms[k..])
    ensures SeenAfter(false, ms) == (k < |ms|)
  {
    if k > 0 {
      GateOpensAtKeyframe(ms[1..], k - 1);
      assert ms[1..][k - 1..] == ms[k..];
    } else {
      assert ms[k..] == ms;
      if ms != [] { OpenGateForwardsAll(ms[1..]); }
    }
  }

  /** A connection without the display capability gets nothing. */
  lemma {:induction false} NothingWithoutDisplay(seen: bool, ms: seq<CompositorToNet>)
    ensures Forwarded(false, seen, ms) == []
    decreases |ms|
  {
    if ms != [] { NothingWithoutDisplay(Opens(seen, ms[0]), ms[1..]); }
  }

  lemma {:induction false} OpenGateForwardsAll(ms: seq<CompositorToNet>)
    ensures Forwarded(true, true, ms) == FramesOf(ms) && SeenAfter(true, ms)
  {
    if ms != [] { OpenGateForwardsAll(ms[1..]); }
  }

  // ----- the client

  ghost predicate CanApply(o: Output, fb: seq<byte>, u: FrameUpdate) {
    o.Valid() && o.IsClientBuffer(fb) && Deliverable(u.regions, o.width, o.height)
  }

  ghost function BufferAfter(o: Output, fb: seq<byte>, u: FrameUpdate): (s: seq<byte>)
    requires CanApply(o, fb, u)
    ensures |s| == |fb|
  {
    AppliedAll(fb, o.width, o.height, o.width * 4, u.regions)
  }

  ghost predicate Matches(o: Output, fb: seq<byte>, u: FrameUpdate)
    requires o.Valid() && o.IsClientBuffer(fb)
  {
    ClientBufferShows(o, fb);
    C.Checksum(fb, o.width * 4, o.width, o.height) == u.checksum
  }

  class DisplayClient {
    const output: Output
    const framebuffer: array<byte>
    var keyframePending: bool
    /** `RequestKeyframe` messages sent so far, and sequence numbers acknowledged. */
    var requests: nat
    var acks: seq<nat>

    constructor (o: Output)
      requires o.Valid()
      ensures output == o && fresh(framebuffer) && !keyframePending && requests == 0 && acks == []
      ensures o.IsClientBuffer(framebuffer[..])
      ensures forall i :: 0 <= i < framebuffer.Length ==> framebuffer[i] == 0
    {
      RowStartIsProduct(o.width * 4, o.height);
      output := o;
      framebuffer := new byte[o.height * (o.width * 4)](_ => 0);
      keyframePending, requests, acks := false, 0, [];
    }

    method ApplyAll(rs: seq<DamageRegion>)
      requires output.Valid() && output.IsClientBuffer(framebuffer[..])
      requires Deliverable(rs, output.width, output.height)
      modifies framebuffer
      ensures framebuffer[..] == AppliedAll(old(framebuffer[..]), output.width, output.height, output.width * 4, rs)
    {
      ghost var before := framebuffer[..];
      var i := 0;
      while i < |rs|
        invariant 0 <= i <= |rs|
        invariant Deliverable(rs[..i], output.width, output.height)
        invariant framebuffer[..] == AppliedAll(before, output.width, output.height, output.width * 4, rs[..i])
      {
        OnOutputFits(rs[i].box, output.width, output.height, output.width * 4);
        assert rs[..i + 1][..i] == rs[..i];
        ApplyRegion(framebuffer, output.width * 4, rs[i]);
        i := i + 1;
      }
      assert rs[..i] == rs;
    }

    method Receive(u: FrameUpdate)
      requires CanApply(output, framebuffer[..], u)
      modifies this, framebuffer
      ensures framebuffer[..] == BufferAfter(output, old(framebuffer[..]), u)
      ensures var ok := Matches(output, framebuffer[..], u);
              && keyframePending == !ok
              && requests == old(requests) + (if !ok && !old(keyframePending) then 1 else 0)
      ensures acks == old(acks) + [u.sequence]
    {
      ApplyAll(u.regions);
      ClientBufferShows(output, framebuffer[..]);
      var local := C.ComputeChecksum(framebuffer[..], output.width * 4, output.width, output.height);
      if local != u.checksum {
        if !keyframePending {
          requests := requests + 1;
          keyframePending := true;
        }
      } else {
        keyframePending := false;
      }
      acks := acks + [u.sequence];
    }
  }
}
