/**
 What a keyframe request achieves: from the moment the compositor reads it, and as long as
 nothing is lost from there on, every client that applies anything sent later is back in sync.
 */
module ResyncHeals {
  import opened Display
  import opened NetworkLoop
  import opened Resync
  import opened ResyncProofs
  import opened ResyncRuns

  // ----- the request is answered

  /** Message number `q` is or will be a keyframe. */
  ghost predicate Owed(s: System, q: nat) {
    if |s.sent| < q then |s.sent| == q - 1 && s.enc.forceKeyframe else q > 0 && s.sent[q - 1].keyframe
  }

  lemma StepKeepsOwed(o: Output, s: System, step: Step, q: nat)
    requires Enabled(o, s, step) && Safe(o, s, step) && Owed(s, q)
    ensures Owed(Next(o, s, step), q)
  {
  }

  // ----- what is delivered from then on

  /** Connection numbers are used once. */
  ghost predicate ConnsFresh(s: System) {
    && (!s.net.Idle? ==> s.net.conn < s.accepted)
    && (s.net.Starting? || s.net.Binding? ==> s.net.conn !in s.clients)
    && forall k :: k in s.clients ==> k < s.accepted
  }

  lemma StepKeepsConnsFresh(o: Output, s: System, step: Step)
    requires Enabled(o, s, step) && Safe(o, s, step) && ConnsFresh(s)
    ensures ConnsFresh(Next(o, s, step))
  {
  }

  ghost predicate Open(net: Net, k: nat) {
    net.Serving? && net.conn == k && net.display && net.keyframeSeen
  }

  /** The deliveries from index `from` on follow one another without a gap, and start with a keyframe
      or no later than message `q`; those before are older than message `q`. */
  ghost predicate Unbroken(d: seq<Delivery>, from: nat, q: nat) {
    && from <= |d|
    && (forall j :: 0 <= j < from ==> d[j].sequence < q)
    && (from < |d| ==> d[from].keyframe || d[from].sequence <= q)
    && forall j :: from < j < |d| ==> d[j - 1].sequence + 1 == d[j].sequence
  }

  /** An open connection has been written everything taken off the channel since. */
  ghost predicate Healing(s: System, k: nat, from: nat, q: nat) {
    k in s.clients ==>
      var d := s.clients[k].delivered;
      && Unbroken(d, from, q)
      && (Open(s.net, k) ==> if |d| == from then Consumed(s) < q else d[|d| - 1].sequence == Consumed(s))
      && (s.net.Serving? && s.net.conn == k && !Open(s.net, k) ==> |d| == from)
  }

  lemma DeliveryStaysUnbroken(d: seq<Delivery>, x: Delivery, from: nat, q: nat)
    requires Unbroken(d, from, q)
    requires if |d| == from then x.keyframe || x.sequence <= q else d[|d| - 1].sequence + 1 == x.sequence
    ensures Unbroken(d + [x], from, q)
  {
  }

  lemma ForwardKeepsHealing(s: System, k: nat, from: nat, q: nat)
    requires s.net.Serving? && s.channel != [] && s.channel[0].frame.sequence == Consumed(s) + 1
    requires Healing(s, k, from, q)
    ensures Healing(AfterForward(s, false), k, from, q)
  {
    var m := s.channel[0];
    if k in s.clients && s.net.conn == k && s.net.display && Opens(s.net.keyframeSeen, m) {
      DeliveryStaysUnbroken(s.clients[k].delivered, Delivery(m.frame.sequence, m.SendKeyframe?), from, q);
    }
  }

  lemma WakeKeepsHealing(o: Output, s: System, w: Wakeup, k: nat, from: nat, q: nat)
    requires ConnsFresh(s) && Enabled(o, s, NetWake(w)) && Healing(s, k, from, q) && (k !in s.clients ==> from == 0)
    ensures Healing(AfterWake(o, s, w), k, from, q)
  {
  }

  /** A step that leaves the connection's deliveries alone, and takes nothing off the channel while
      one is served. */
  lemma SameDeliveriesHeal(s: System, s': System, k: nat, from: nat, q: nat)
    requires Healing(s, k, from, q) && (k in s'.clients <==> k in s.clients) && s'.net == s.net
    requires k in s.clients ==> s'.clients[k].delivered == s.clients[k].delivered
    requires s.net.Idle? || Consumed(s') == Consumed(s)
    ensures Healing(s', k, from, q)
  {
  }

  lemma ForwardStepHeals(o: Output, s: System, k: nat, from: nat, q: nat)
    requires Inv(o, s) && Enabled(o, s, Forward(false)) && Healing(s, k, from, q)
    ensures Healing(AfterForward(s, false), k, from, q)
  {
    TakeKeepsChannel(s.sent, s.channel);
    SentNumber(o, s.sent, Consumed(s));
    ForwardKeepsHealing(s, k, from, q);
  }

  lemma OtherStepHeals(o: Output, s: System, step: Step, k: nat, from: nat, q: nat)
    requires Enabled(o, s, step) && Safe(o, s, step) && !step.Forward? && !step.NetWake? && Healing(s, k, from, q)
    ensures Healing(Next(o, s, step), k, from, q)
  {
    SameDeliveriesHeal(s, Next(o, s, step), k, from, q);
  }

  lemma StepKeepsHealing(o: Output, s: System, step: Step, k: nat, from: nat, q: nat)
    requires Inv(o, s) && ConnsFresh(s) && Enabled(o, s, step) && Safe(o, s, step) && step != Forward(true)
    requires Healing(s, k, from, q) && (k !in s.clients ==> from == 0)
    ensures Healing(Next(o, s, step), k, from, q)
  {
    match step {
      case Forward(_) => ForwardStepHeals(o, s, k, from, q);
      case NetWake(w) => WakeKeepsHealing(o, s, w, k, from, q);
      case _ => OtherStepHeals(o, s, step, k, from, q);
    }
  }

  lemma StepKeepsClients(o: Output, s: System, step: Step, k: nat)
    requires Enabled(o, s, step) && Safe(o, s, step) && k in s.clients
    ensures k in Next(o, s, step).clients
  {
  }

  // ----- what the client found

  /** A frame applied in sync was found right. */
  ghost predicate Checked(c: Client) {
    && 0 <= |c.checks| == c.Applied()
    && forall i :: 0 <= i < |c.checks| ==> CheckedAt(c, i)
  }

  ghost predicate CheckedAt(c: Client, i: nat)
    requires i < |c.checks| == c.Applied()
  {
    InSync(c.delivered, i + 1) ==> c.checks[i].Matched?
  }

  ghost predicate AllChecked(clients: map<nat, Client>) {
    forall k :: k in clients ==> Checked(clients[k])
  }

  lemma DeliveryStaysChecked(c: Client, m: CompositorToNet)
    requires Checked(c)
    ensures Checked(Delivered(c, m))
  {
    var c' := Delivered(c, m);
    forall i | 0 <= i < |c'.checks| ensures CheckedAt(c', i) {
      assert CheckedAt(c, i);
      InSyncPrefix(c.delivered, c'.delivered[|c.delivered|], i + 1);
    }
  }

  lemma ApplyStaysChecked(o: Output, sent: seq<SentFrame>, consumed: int, c: Client)
    requires SentInv(o, sent) && ClientInv(o, sent, consumed, c) && c.wire != [] && CanApply(o, c.fb, c.wire[0])
    requires Checked(c)
    ensures Checked(AfterApply(o, c))
  {
    var c' := AfterApply(o, c);
    forall i | 0 <= i < |c'.checks| ensures CheckedAt(c', i) {
      if i < |c.checks| {
        assert CheckedAt(c, i);
      } else if InSync(c.delivered, i + 1) {
        ExactMatches(o, sent, consumed, c);
      }
    }
  }

  lemma StepKeepsChecked(o: Output, s: System, step: Step)
    requires Inv(o, s) && Enabled(o, s, step) && Safe(o, s, step) && AllChecked(s.clients)
    ensures AllChecked(Next(o, s, step).clients)
  {
    match step {
      case Apply(conn) =>
        assert ClientInv(o, s.sent, Consumed(s), s.clients[conn]);
        ApplyStaysChecked(o, s.sent, Consumed(s), s.clients[conn]);
      case Forward(_) =>
        if s.net.conn in s.clients { DeliveryStaysChecked(s.clients[s.net.conn], s.channel[0]); }
      case Relay(conn) => RelayStaysChecked(s.clients[conn]);
      case _ =>
    }
  }

  lemma RelayStaysChecked(c: Client)
    requires Checked(c) && c.requests > 0
    ensures Checked(Relayed(c))
  {
    var c' := Relayed(c);
    forall i | 0 <= i < |c'.checks| ensures CheckedAt(c', i) {
      assert CheckedAt(c, i);
    }
  }

  // ----- runs

  lemma {:induction false} RunFacts(o: Output, states: seq<System>, steps: seq<Step>, n: nat)
    requires ResyncRuns.Run(o, states, steps) && n <= |steps|
    ensures ConnsFresh(states[n]) && AllChecked(states[n].clients)
  {
    if n > 0 {
      RunFacts(o, states, steps, n - 1);
      RunKeepsInv(o, states, steps, n - 1);
      StepKeepsConnsFresh(o, states[n - 1], steps[n - 1]);
      StepKeepsChecked(o, states[n - 1], steps[n - 1]);
    }
  }

  /** The compositor reads a keyframe request in step `d`. */
  ghost predicate ReadsRequest(states: seq<System>, steps: seq<Step>, d: nat)
    requires d < |steps| < |states|
  {
    steps[d].Drain? && states[d].events != [] && states[d].events[0].RequestKeyframe?
  }

  /** The first frame sent after a request was read is a keyframe, whatever happens in between and
      however long it takes. */
  lemma {:induction false} RequestIsAnswered(o: Output, states: seq<System>, steps: seq<Step>, d: nat, m: nat)
    requires ResyncRuns.Run(o, states, steps) && d < m <= |steps| && ReadsRequest(states, steps, d)
    ensures |states[m].sent| >= |states[d].sent|
    ensures |states[m].sent| > |states[d].sent| ==> states[m].sent[|states[d].sent|].keyframe
    ensures Owed(states[m], |states[d].sent| + 1)
  {
    RunKeepsInv(o, states, steps, m - 1);
    if m > d + 1 {
      RequestIsAnswered(o, states, steps, d, m - 1);
      StepKeepsOwed(o, states[m - 1], steps[m - 1], |states[d].sent| + 1);
    }
  }

  /** Deliveries a connection had when the request was read. */
  function Before(s: System, k: nat): nat {
    if k in s.clients then |s.clients[k].delivered| else 0
  }

  lemma HealingStarts(o: Output, s: System, k: nat)
    requires Inv(o, s)
    ensures Healing(s, k, Before(s, k), |s.sent| + 1)
  {
    if k in s.clients {
      assert ClientInv(o, s.sent, Consumed(s), s.clients[k]);
    }
  }

  lemma {:induction false} HealingGoesOn(o: Output, states: seq<System>, steps: seq<Step>, d: nat, m: nat, k: nat)
    requires ResyncRuns.Run(o, states, steps) && d <= m <= |steps| && forall i :: d <= i < m ==> steps[i] != Forward(true)
    ensures Healing(states[m], k, Before(states[d], k), |states[d].sent| + 1)
    ensures k in states[d].clients ==> k in states[m].clients
  {
    if m == d {
      RunKeepsInv(o, states, steps, d);
      HealingStarts(o, states[d], k);
    } else {
      HealingGoesOn(o, states, steps, d, m - 1, k);
      RunKeepsInv(o, states, steps, m - 1);
      RunFacts(o, states, steps, m - 1);
      StepKeepsHealing(o, states[m - 1], steps[m - 1], k, Before(states[d], k), |states[d].sent| + 1);
      if k in states[d].clients { StepKeepsClients(o, states[m - 1], steps[m - 1], k); }
    }
  }

  lemma {:induction false} HealedInSync(sent: seq<SentFrame>, d: seq<Delivery>, from: nat, q: nat, a: nat)
    requires InRange(sent, d) && Unbroken(d, from, q) && from <= a < |d|
    requires 0 < q <= |sent| && sent[q - 1].keyframe && (d[from].keyframe || d[a].sequence >= q)
    ensures InSync(d, a + 1)
    decreases a
  {
    if !d[a].keyframe {
      HealedInSync(sent, d, from, q, a - 1);
    }
  }

  /** From the moment a request is read, as long as nothing is lost from there on: a client, the one
      that asked or any other, that has applied a frame sent after that moment shows exactly the
      server's picture in the frame it applied last, and is not waiting for a keyframe. */
  lemma RequestHeals(o: Output, states: seq<System>, steps: seq<Step>, d: nat, m: nat, k: nat)
    requires ResyncRuns.Run(o, states, steps) && d < m <= |steps| && ReadsRequest(states, steps, d)
    requires forall i :: d <= i < m ==> steps[i] != Forward(true)
    requires k in states[m].clients && 0 < states[m].clients[k].Applied() <= |states[m].clients[k].delivered|
    requires var c := states[m].clients[k]; c.delivered[c.Applied() - 1].sequence > |states[d].sent|
    ensures var c := states[m].clients[k]; var n := c.delivered[c.Applied() - 1].sequence;
            && 1 <= n <= |states[m].sent| && GoodFrame(o, states[m].sent[n - 1])
            && c.fb == Picture(o, states[m].sent[n - 1].pixels) && !c.keyframePending
  {
    var c := states[m].clients[k];
    var q := |states[d].sent| + 1;
    RequestIsAnswered(o, states, steps, d, m);
    HealingGoesOn(o, states, steps, d, m, k);
    RunKeepsClient(o, states, steps, m, k);
    HealedInSync(states[m].sent, c.delivered, Before(states[d], k), q, c.Applied() - 1);
    GaplessIsExact(o, states, steps, m, k);
    RunFacts(o, states, steps, m);
    assert Checked(c) && CheckedAt(c, c.Applied() - 1);
  }
}
