/**
 The network thread's serve loop: one client at a time, newcomers preempt, and the compositor
 is told about every connect and disconnect through an ordered queue.
 */
module NetworkLoop {

  import opened Wrappers

  /** Which connection is being served, and how far its handshake has come. */
  datatype Net =
    | Idle
    | Starting(conn: nat, token: Option<string>, display: bool)
    | Binding(conn: nat, display: bool)
    | Serving(conn: nat, display: bool, keyframeSeen: bool)

  datatype NetToCompositor =
    | ClientConnected(conn: nat, token: Option<string>)
    | ClientDisconnected
    | RequestKeyframe

  /** What wakes the loop up. */
  datatype Wakeup =
    /** The acceptor routed a client here: it is taken up, or takes over. */
    | Routed(token: Option<string>, display: bool)
    /** The serve future was polled for the first time. */
    | Started
    /** The compositor's decision arrived: serve here. */
    | Bound
    /** The served client asked for a keyframe. */
    | KeyframeAsked
    /** The served connection ended: redirect, timeout, stream or write error. */
    | Finished

  predicate Possible(net: Net, w: Wakeup) {
    match w
    case Routed(_, _) => true
    case Started => net.Starting?
    case Bound => net.Binding?
    case KeyframeAsked => net.Serving?
    case Finished => net.Binding? || net.Serving?
  }

  function NextNet(net: Net, newConn: nat, w: Wakeup): Net
    requires Possible(net, w)
  {
    match w
    case Routed(token, display) => Starting(newConn, token, display)
    case Started => Binding(net.conn, net.display)
    case Bound => Serving(net.conn, net.display, false)
    case KeyframeAsked => net
    case Finished => Idle
  }

  function Emitted(net: Net, w: Wakeup): seq<NetToCompositor>
    requires Possible(net, w)
  {
    match w
    case Routed(_, _) => if net.Idle? then [] else [ClientDisconnected]
    case Started => [ClientConnected(net.conn, net.token)]
    case Bound => []
    case KeyframeAsked => [RequestKeyframe]
    case Finished => [ClientDisconnected]
  }

  /** The compositor has been told of the current connection and not yet of its end. */
  predicate Announced(net: Net) {
    net.Binding? || net.Serving?
  }

  /** The loop, driven by a list of wakeups. */
  class Server {
    var net: Net
    var accepted: nat
    /** Events sent to the compositor so far. */
    var tx: seq<NetToCompositor>

    constructor ()
      ensures net == Idle && accepted == 0 && tx == []
    {
      net, accepted, tx := Idle, 0, [];
    }

    method Wake(w: Wakeup)
      requires Possible(net, w)
      modifies this
      ensures net == NextNet(old(net), old(accepted), w)
      ensures accepted == old(accepted) + (if w.Routed? then 1 else 0)
      ensures tx == old(tx) + Emitted(old(net), w)
    {
      match w {
        case Routed(token, display) =>
          if !net.Idle? {
            tx := tx + [ClientDisconnected];
          }
          net := Starting(accepted, token, display);
          accepted := accepted + 1;
        case Started =>
          tx := tx + [ClientConnected(net.conn, net.token)];
          net := Binding(net.conn, net.display);
        case Bound =>
          net := Serving(net.conn, net.display, false);
        case KeyframeAsked =>
          tx := tx + [RequestKeyframe];
        case Finished =>
          tx := tx + [ClientDisconnected];
          net := Idle;
      }
    }
  }

  /** Reading a queue of events from a point where a client is (`open`) or is not connected:
      two `ClientConnected` always have a `ClientDisconnected` between them. */
  predicate Separated(open: bool, q: seq<NetToCompositor>)
    decreases |q|
  {
    q == [] ||
    match q[0]
    case ClientConnected(_, _) => !open && Separated(true, q[1..])
    case ClientDisconnected => Separated(false, q[1..])
    case RequestKeyframe => Separated(open, q[1..])
  }

  function OpenAfter(open: bool, q: seq<NetToCompositor>): bool
    decreases |q|
  {
    if q == [] then open
    else match q[0]
    case ClientConnected(_, _) => OpenAfter(true, q[1..])
    case ClientDisconnected => OpenAfter(false, q[1..])
    case RequestKeyframe => OpenAfter(open, q[1..])
  }

  lemma {:induction false} SeparatedSnoc(open: bool, q: seq<NetToCompositor>, e: NetToCompositor)
    requires Separated(open, q) && (e.ClientConnected? ==> !OpenAfter(open, q))
    ensures Separated(open, q + [e])
    ensures OpenAfter(open, q + [e])
         == if e.RequestKeyframe? then OpenAfter(open, q) else e.ClientConnected?
    decreases |q|
  {
    if q != [] {
      assert (q + [e])[1..] == q[1..] + [e];
      var next := if q[0].RequestKeyframe? then open else q[0].ClientConnected?;
      SeparatedSnoc(next, q[1..], e);
    }
  }

  /** What every wakeup keeps: the queue is separated, and it leaves a client connected exactly
      while the loop has an announced connection. */
  lemma WakeupKeepsSeparated(open: bool, q: seq<NetToCompositor>, net: Net, newConn: nat, w: Wakeup)
    requires Separated(open, q) && OpenAfter(open, q) == Announced(net) && Possible(net, w)
    ensures Separated(open, q + Emitted(net, w))
    ensures OpenAfter(open, q + Emitted(net, w)) == Announced(NextNet(net, newConn, w))
  {
    if Emitted(net, w) == [] {
      assert q + Emitted(net, w) == q;
    } else {
      SeparatedSnoc(open, q, Emitted(net, w)[0]);
      assert Emitted(net, w) == [Emitted(net, w)[0]];
    }
  }

  /** The wakeups of a whole run, one after another. */
  ghost predicate Run(nets: seq<Net>, queues: seq<seq<NetToCompositor>>, ws: seq<Wakeup>) {
    && |nets| == |queues| == |ws| + 1
    && nets[0] == Idle && queues[0] == []
    && forall i :: 0 <= i < |ws| ==>
         && Possible(nets[i], ws[i])
         && nets[i + 1] == NextNet(nets[i], i, ws[i])
         && queues[i + 1] == queues[i] + Emitted(nets[i], ws[i])
  }

  /** In every run of the serve loop, every two connects are separated by a disconnect. */
  lemma {:induction false} ConnectsAreSeparated(nets: seq<Net>, queues: seq<seq<NetToCompositor>>, ws: seq<Wakeup>, n: nat)
    requires Run(nets, queues, ws) && n <= |ws|
    ensures Separated(false, queues[n]) && OpenAfter(false, queues[n]) == Announced(nets[n])
  {
    if n > 0 {
      ConnectsAreSeparated(nets, queues, ws, n - 1);
      WakeupKeepsSeparated(false, queues[n - 1], nets[n - 1], n - 1, ws[n - 1]);
    }
  }

  // ----- every connection ends once

  function CountConnects(q: seq<NetToCompositor>): nat {
    if q == [] then 0 else CountConnects(q[..|q| - 1]) + if q[|q| - 1].ClientConnected? then 1 else 0
  }

  function CountDisconnects(q: seq<NetToCompositor>): nat {
    if q == [] then 0 else CountDisconnects(q[..|q| - 1]) + if q[|q| - 1].ClientDisconnected? then 1 else 0
  }

  function CountRouted(ws: seq<Wakeup>): nat {
    if ws == [] then 0 else CountRouted(ws[..|ws| - 1]) + if ws[|ws| - 1].Routed? then 1 else 0
  }

  function CountStarted(ws: seq<Wakeup>): nat {
    if ws == [] then 0 else CountStarted(ws[..|ws| - 1]) + if ws[|ws| - 1].Started? then 1 else 0
  }

  lemma EmittedCounts(q: seq<NetToCompositor>, net: Net, w: Wakeup)
    requires Possible(net, w)
    ensures CountConnects(q + Emitted(net, w)) == CountConnects(q) + if w.Started? then 1 else 0
    ensures CountDisconnects(q + Emitted(net, w))
         == CountDisconnects(q) + if w.Finished? || (w.Routed? && !net.Idle?) then 1 else 0
  {
    if Emitted(net, w) == [] {
      assert q + Emitted(net, w) == q;
    } else {
      assert (q + Emitted(net, w))[..|q|] == q && Emitted(net, w) == [Emitted(net, w)[0]];
    }
  }

  /** In every run of the serve loop: as many disconnects are announced as clients were taken up, less
      the one in hand, whether it was announced or not; and a connect for each one that was started. */
  lemma {:induction false} EveryConnectionEnds(nets: seq<Net>, queues: seq<seq<NetToCompositor>>, ws: seq<Wakeup>, n: nat)
    requires Run(nets, queues, ws) && n <= |ws|
    ensures CountDisconnects(queues[n]) + (if nets[n].Idle? then 0 else 1) == CountRouted(ws[..n])
    ensures CountConnects(queues[n]) == CountStarted(ws[..n])
  {
    if n > 0 {
      EveryConnectionEnds(nets, queues, ws, n - 1);
      EmittedCounts(queues[n - 1], nets[n - 1], ws[n - 1]);
      assert ws[..n][..n - 1] == ws[..n - 1];
    }
  }
}
