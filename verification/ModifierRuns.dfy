/**
 The client's modifier state and the server's, over whole connections. The server starts every
 connection with nothing held; the client keeps its modifier state from one connection to the
 next, so it may start one with modifiers that the server is missing.
 */
module ModifierRuns {
  import opened Wrappers
  import opened Modifiers

  // ----- what the messages of one event do to the held modifiers

  function HeldFor(mods: Mods): set<nat> {
    (if mods.shift then {KEY_LEFTSHIFT} else {}) + (if mods.ctrl then {KEY_LEFTCTRL} else {})
    + (if mods.alt then {KEY_LEFTALT} else {}) + (if mods.super then {KEY_LEFTMETA} else {})
  }

  function ClientMask(mods: Mods): bv32 {
    Bit(mods.shift, MOD_SHIFT) | Bit(mods.ctrl, MOD_CTRL) | Bit(mods.alt, MOD_ALT) | Bit(mods.super, MOD_SUPER)
  }

  lemma MaskForMods(mods: Mods)
    ensures MaskOf(HeldFor(mods)) == ClientMask(mods)
  {
  }

  /** Each modifier can be read off the mask. */
  lemma MaskBits(m: Mods)
    ensures ClientMask(m) & MOD_SHIFT == Bit(m.shift, MOD_SHIFT)
    ensures ClientMask(m) & MOD_CTRL == Bit(m.ctrl, MOD_CTRL)
    ensures ClientMask(m) & MOD_ALT == Bit(m.alt, MOD_ALT)
    ensures ClientMask(m) & MOD_SUPER == Bit(m.super, MOD_SUPER)
  {
    assert m.shift || !m.shift;
    assert m.ctrl || !m.ctrl;
  }

  lemma MaskTells(a: Mods, b: Mods)
    ensures ClientMask(a) == ClientMask(b) <==> a == b
  {
    MaskBits(a);
    MaskBits(b);
  }

  lemma HeldToggled(m: Mods, on: bool)
    ensures Toggled(HeldFor(m), KEY_LEFTSHIFT, on) == HeldFor(m.(shift := on))
    ensures Toggled(HeldFor(m), KEY_LEFTCTRL, on) == HeldFor(m.(ctrl := on))
    ensures Toggled(HeldFor(m), KEY_LEFTALT, on) == HeldFor(m.(alt := on))
    ensures Toggled(HeldFor(m), KEY_LEFTMETA, on) == HeldFor(m.(super := on))
  {
  }

  lemma ChangeInjected(s: Keyboard, was: bool, now: bool, k: nat, grabs: Bindings)
    requires ModifierBit(k).Some?
    ensures InjectedAll(s, Change(was, now, k), grabs).held == if was == now then s.held else Toggled(s.held, k, now)
  {
    if was != now {
      InjectedOne(s, KeyMsg(k, now), grabs);
    }
  }

  lemma InjectedFour(s: Keyboard, a: seq<KeyMsg>, b: seq<KeyMsg>, c: seq<KeyMsg>, d: seq<KeyMsg>, grabs: Bindings)
    ensures InjectedAll(s, a + b + c + d, grabs)
         == InjectedAll(InjectedAll(InjectedAll(InjectedAll(s, a, grabs), b, grabs), c, grabs), d, grabs)
  {
    InjectedConcat(s, a + b + c, d, grabs);
    InjectedConcat(s, a + b, c, grabs);
    InjectedConcat(s, a, b, grabs);
  }

  function Follow(held: bool, was: bool, now: bool): bool { if was == now then held else now }

  /** The server's idea of the modifiers after the client reported a change. */
  function Synced(held: Mods, prev: Mods, now: Mods): Mods {
    Mods(Follow(held.shift, prev.shift, now.shift), Follow(held.ctrl, prev.ctrl, now.ctrl),
         Follow(held.alt, prev.alt, now.alt), Follow(held.super, prev.super, now.super))
  }

  lemma OneFollows(s: Keyboard, held: Mods, held': Mods, k: nat, was: bool, now: bool, grabs: Bindings)
    requires s.held == HeldFor(held)
    requires (k == KEY_LEFTSHIFT && held' == held.(shift := Follow(held.shift, was, now)))
          || (k == KEY_LEFTCTRL && held' == held.(ctrl := Follow(held.ctrl, was, now)))
          || (k == KEY_LEFTALT && held' == held.(alt := Follow(held.alt, was, now)))
          || (k == KEY_LEFTMETA && held' == held.(super := Follow(held.super, was, now)))
    ensures InjectedAll(s, Change(was, now, k), grabs).held == HeldFor(held')
  {
    ChangeInjected(s, was, now, k, grabs);
    HeldToggled(held, now);
  }

  lemma ModifiersInjected(s: Keyboard, held: Mods, prev: Mods, now: Mods, grabs: Bindings)
    requires s.held == HeldFor(held)
    ensures InjectedAll(s, ModifierMsgs(prev, now), grabs).held == HeldFor(Synced(held, prev, now))
  {
    var a, b := Change(prev.shift, now.shift, KEY_LEFTSHIFT), Change(prev.ctrl, now.ctrl, KEY_LEFTCTRL);
    var c, d := Change(prev.alt, now.alt, KEY_LEFTALT), Change(prev.super, now.super, KEY_LEFTMETA);
    InjectedFour(s, a, b, c, d, grabs);
    var h2 := held.(shift := Follow(held.shift, prev.shift, now.shift), ctrl := Follow(held.ctrl, prev.ctrl, now.ctrl));
    FirstTwo(s, held, prev, now, grabs);
    LastTwo(InjectedAll(InjectedAll(s, a, grabs), b, grabs), h2, prev, now, grabs);
  }

  lemma FirstTwo(s: Keyboard, held: Mods, prev: Mods, now: Mods, grabs: Bindings)
    requires s.held == HeldFor(held)
    ensures var s1 := InjectedAll(s, Change(prev.shift, now.shift, KEY_LEFTSHIFT), grabs);
            InjectedAll(s1, Change(prev.ctrl, now.ctrl, KEY_LEFTCTRL), grabs).held
            == HeldFor(held.(shift := Follow(held.shift, prev.shift, now.shift), ctrl := Follow(held.ctrl, prev.ctrl, now.ctrl)))
  {
    var h1 := held.(shift := Follow(held.shift, prev.shift, now.shift));
    OneFollows(s, held, h1, KEY_LEFTSHIFT, prev.shift, now.shift, grabs);
    OneFollows(InjectedAll(s, Change(prev.shift, now.shift, KEY_LEFTSHIFT), grabs), h1,
               h1.(ctrl := Follow(held.ctrl, prev.ctrl, now.ctrl)), KEY_LEFTCTRL, prev.ctrl, now.ctrl, grabs);
  }

  lemma LastTwo(s: Keyboard, held: Mods, prev: Mods, now: Mods, grabs: Bindings)
    requires s.held == HeldFor(held)
    ensures var s1 := InjectedAll(s, Change(prev.alt, now.alt, KEY_LEFTALT), grabs);
            InjectedAll(s1, Change(prev.super, now.super, KEY_LEFTMETA), grabs).held
            == HeldFor(held.(alt := Follow(held.alt, prev.alt, now.alt), super := Follow(held.super, prev.super, now.super)))
  {
    var h1 := held.(alt := Follow(held.alt, prev.alt, now.alt));
    OneFollows(s, held, h1, KEY_LEFTALT, prev.alt, now.alt, grabs);
    OneFollows(InjectedAll(s, Change(prev.alt, now.alt, KEY_LEFTALT), grabs), h1,
               h1.(super := Follow(held.super, prev.super, now.super)), KEY_LEFTMETA, prev.super, now.super, grabs);
  }

  /** The press is bracketed by a temporary change of Shift. */
  predicate Brackets(event: KeyEvent, realShift: bool) {
    Forwarded(event).Some? && Correctable(event) && WantsUpper(event) != realShift
  }

  /** What is sent before the key itself. */
  function Toggle(event: KeyEvent, realShift: bool): seq<KeyMsg> {
    if Brackets(event, realShift) then [KeyMsg(KEY_LEFTSHIFT, !realShift)] else []
  }

  lemma {:induction false} BracketInjected(s: Keyboard, held: Mods, key: KeyMsg, realShift: bool, grabs: Bindings)
    requires s.held == HeldFor(held) && ModifierBit(key.keycode).None?
    ensures InjectedAll(s, [KeyMsg(KEY_LEFTSHIFT, !realShift), key, KeyMsg(KEY_LEFTSHIFT, realShift)], grabs).held
         == HeldFor(held.(shift := realShift))
  {
    InjectedThree(s, KeyMsg(KEY_LEFTSHIFT, !realShift), key, KeyMsg(KEY_LEFTSHIFT, realShift), grabs);
    HeldToggled(held, !realShift);
    HeldToggled(held.(shift := !realShift), realShift);
  }

  lemma {:induction false} KeyInjected(s: Keyboard, held: Mods, event: KeyEvent, realShift: bool, grabs: Bindings)
    requires s.held == HeldFor(held)
    ensures InjectedAll(s, ConvertKeyboard(event, realShift), grabs).held
         == HeldFor(if Brackets(event, realShift) then held.(shift := realShift) else held)
  {
    if Forwarded(event).Some? {
      if Brackets(event, realShift) {
        BracketInjected(s, held, Forwarded(event).value, realShift, grabs);
      } else {
        InjectedOne(s, Forwarded(event).value, grabs);
      }
    }
  }

  // ----- connections

  /** What the server knows of after one event. */
  function HeldStep(held: Mods, mods: Mods, e: ClientEvent): Mods {
    match e
    case ModifiersChanged(now) => Synced(held, mods, now)
    case Key(event) => if Brackets(event, mods.shift) then held.(shift := mods.shift) else held
  }

  lemma EventInjected(s: Keyboard, held: Mods, mods: Mods, e: ClientEvent, grabs: Bindings)
    requires s.held == HeldFor(held)
    ensures InjectedAll(s, Sent(mods, e), grabs).held == HeldFor(HeldStep(held, mods, e))
  {
    match e {
      case Key(event) => KeyInjected(s, held, event, mods.shift, grabs);
      case ModifiersChanged(now) => ModifiersInjected(s, held, mods, now, grabs);
    }
  }

  ghost predicate RunStep(mods: seq<Mods>, servers: seq<Keyboard>, es: seq<ClientEvent>, grabs: Bindings, i: int)
    requires 0 <= i < |es| && |mods| == |servers| == |es| + 1
  {
    mods[i + 1] == ModsAfter(mods[i], es[i]) && servers[i + 1] == InjectedAll(servers[i], Sent(mods[i], es[i]), grabs)
  }

  /** The client's events of one connection, and the server after each. */
  ghost predicate Run(mods: seq<Mods>, servers: seq<Keyboard>, es: seq<ClientEvent>, grabs: Bindings) {
    && |mods| == |servers| == |es| + 1 && servers[0] == CLEAN
    && forall i :: 0 <= i < |es| ==> RunStep(mods, servers, es, grabs, i)
  }

  function Both(a: Mods, b: Mods): Mods {
    Mods(a.shift && b.shift, a.ctrl && b.ctrl, a.alt && b.alt, a.super && b.super)
  }

  function MissingStep(missing: Mods, mods: Mods, e: ClientEvent): Mods {
    match e
    case ModifiersChanged(now) => Both(missing, now)
    case Key(event) => if Brackets(event, mods.shift) then missing.(shift := false) else missing
  }

  /** The modifiers the client holds and the server does not know of, after `n` events. */
  function Missing(mods: seq<Mods>, es: seq<ClientEvent>, n: nat): Mods
    requires n <= |es| < |mods|
  {
    if n == 0 then mods[0] else MissingStep(Missing(mods, es, n - 1), mods[n - 1], es[n - 1])
  }

  function Known(mods: Mods, missing: Mods): Mods {
    Mods(mods.shift && !missing.shift, mods.ctrl && !missing.ctrl, mods.alt && !missing.alt, mods.super && !missing.super)
  }

  predicate Among(missing: Mods, mods: Mods) {
    (missing.shift ==> mods.shift) && (missing.ctrl ==> mods.ctrl) && (missing.alt ==> mods.alt) && (missing.super ==> mods.super)
  }

  lemma KnownStep(mods: Mods, missing: Mods, e: ClientEvent)
    requires Among(missing, mods)
    ensures HeldStep(Known(mods, missing), mods, e) == Known(ModsAfter(mods, e), MissingStep(missing, mods, e))
    ensures Among(MissingStep(missing, mods, e), ModsAfter(mods, e))
  {
  }

  lemma {:induction false} RunHolds(mods: seq<Mods>, servers: seq<Keyboard>, es: seq<ClientEvent>, grabs: Bindings, n: nat)
    requires Run(mods, servers, es, grabs) && n <= |es|
    ensures servers[n].held == HeldFor(Known(mods[n], Missing(mods, es, n))) && Among(Missing(mods, es, n), mods[n])
  {
    if n == 0 {
      assert HeldFor(Known(mods[0], mods[0])) == {};
    } else {
      RunHolds(mods, servers, es, grabs, n - 1);
      assert RunStep(mods, servers, es, grabs, n - 1);
      KnownStep(mods[n - 1], Missing(mods, es, n - 1), es[n - 1]);
      EventInjected(servers[n - 1], Known(mods[n - 1], Missing(mods, es, n - 1)), mods[n - 1], es[n - 1], grabs);
    }
  }

  datatype Modifier = Shift | Ctrl | Alt | Super

  predicate Has(m: Mods, x: Modifier) {
    match x
    case Shift => m.shift
    case Ctrl => m.ctrl
    case Alt => m.alt
    case Super => m.super
  }

  ghost predicate HeldThroughout(mods: seq<Mods>, n: nat, x: Modifier)
    requires n < |mods|
  {
    forall i :: 0 <= i <= n ==> Has(mods[i], x)
  }

  /** No letter's case has been corrected. */
  ghost predicate NoBracket(mods: seq<Mods>, es: seq<ClientEvent>, n: nat)
    requires n <= |es| < |mods|
  {
    forall i :: 0 <= i < n && es[i].Key? ==> !Brackets(es[i].event, mods[i].shift)
  }

  /** Held ever since before the connection; for Shift also: no letter's case was corrected. */
  ghost predicate HeldSinceBefore(mods: seq<Mods>, es: seq<ClientEvent>, n: nat, x: Modifier)
    requires n <= |es| < |mods|
  {
    HeldThroughout(mods, n, x) && (x.Shift? ==> NoBracket(mods, es, n))
  }

  /** Event `n - 1` leaves the modifier held, and uncorrected. */
  ghost predicate LeavesHeld(mods: seq<Mods>, es: seq<ClientEvent>, n: nat, x: Modifier)
    requires 0 < n <= |es| < |mods|
  {
    Has(mods[n], x) && (x.Shift? && es[n - 1].Key? ==> !Brackets(es[n - 1].event, mods[n - 1].shift))
  }

  lemma HeldSnoc(mods: seq<Mods>, es: seq<ClientEvent>, n: nat, x: Modifier)
    requires 0 < n <= |es| < |mods|
    ensures HeldSinceBefore(mods, es, n, x) <==> HeldSinceBefore(mods, es, n - 1, x) && LeavesHeld(mods, es, n, x)
  {
  }

  lemma MissingStepIs(missing: Mods, mods: Mods, e: ClientEvent, x: Modifier)
    ensures Has(MissingStep(missing, mods, e), x)
       <==> Has(missing, x) && (e.ModifiersChanged? ==> Has(e.now, x))
            && (x.Shift? && e.Key? ==> !Brackets(e.event, mods.shift))
  {
  }

  lemma AmongHas(missing: Mods, mods: Mods, x: Modifier)
    requires Among(missing, mods)
    ensures Has(missing, x) ==> Has(mods, x)
  {
  }

  lemma MissingSnoc(mods: seq<Mods>, servers: seq<Keyboard>, es: seq<ClientEvent>, grabs: Bindings, n: nat, x: Modifier)
    requires Run(mods, servers, es, grabs) && 0 < n <= |es|
    ensures Has(Missing(mods, es, n), x) <==> Has(Missing(mods, es, n - 1), x) && LeavesHeld(mods, es, n, x)
  {
    assert RunStep(mods, servers, es, grabs, n - 1);
    RunHolds(mods, servers, es, grabs, n);
    AmongHas(Missing(mods, es, n), mods[n], x);
    MissingStepIs(Missing(mods, es, n - 1), mods[n - 1], es[n - 1], x);
  }

  /** A modifier is missing exactly while it has been held ever since before the connection; Shift
      also stops being so with the first letter whose case is corrected. */
  lemma {:induction false} MissingIs(mods: seq<Mods>, servers: seq<Keyboard>, es: seq<ClientEvent>, grabs: Bindings, n: nat, x: Modifier)
    requires Run(mods, servers, es, grabs) && n <= |es|
    ensures Has(Missing(mods, es, n), x) <==> HeldSinceBefore(mods, es, n, x)
  {
    if n > 0 {
      MissingIs(mods, servers, es, grabs, n - 1, x);
      MissingSnoc(mods, servers, es, grabs, n, x);
      HeldSnoc(mods, es, n, x);
    }
  }

  /** The modifier mask that the server checks its key bindings against is the client's modifier
      state exactly if nothing is missing. */
  lemma MaskAgreesIff(mods: seq<Mods>, servers: seq<Keyboard>, es: seq<ClientEvent>, grabs: Bindings, n: nat)
    requires Run(mods, servers, es, grabs) && n <= |es|
    ensures MaskOf(servers[n].held) == ClientMask(mods[n]) <==> Missing(mods, es, n) == NO_MODS
  {
    RunHolds(mods, servers, es, grabs, n);
    MaskForMods(Known(mods[n], Missing(mods, es, n)));
    MaskTells(Known(mods[n], Missing(mods, es, n)), mods[n]);
  }

  /** A client that connects with nothing held is followed through every event. */
  lemma MaskFollowsClient(mods: seq<Mods>, servers: seq<Keyboard>, es: seq<ClientEvent>, grabs: Bindings, n: nat)
    requires Run(mods, servers, es, grabs) && n <= |es| && mods[0] == NO_MODS
    ensures MaskOf(servers[n].held) == ClientMask(mods[n])
  {
    MissingIs(mods, servers, es, grabs, n, Shift);
    MissingIs(mods, servers, es, grabs, n, Ctrl);
    MissingIs(mods, servers, es, grabs, n, Alt);
    MissingIs(mods, servers, es, grabs, n, Super);
    assert forall x :: !Has(mods[0], x);
    MaskAgreesIff(mods, servers, es, grabs, n);
  }

  // ----- letters come out in the right case

  /** What decides the case of a letter: Shift on the seat. */
  predicate SeatShift(s: Keyboard) {
    KEY_LEFTSHIFT in s.seat || KEY_RIGHTSHIFT in s.seat
  }

  /** The letter's press reaches the seat while its Shift is as the letter wants it. */
  predicate LetterRight(s: Keyboard, event: KeyEvent, realShift: bool, grabs: Bindings)
    requires Correctable(event)
  {
    SeatShift(InjectedAll(s, Toggle(event, realShift), grabs)) <==> WantsUpper(event)
  }

  lemma ToggleComesFirst(event: KeyEvent, realShift: bool)
    requires Forwarded(event).Some?
    ensures Toggle(event, realShift) + [Forwarded(event).value] <= ConvertKeyboard(event, realShift)
  {
  }

  /** No key binding takes a press or a release of Shift for itself. */
  ghost predicate SparesShift(grabs: Bindings) {
    forall m: Mods :: !grabs(KEY_LEFTSHIFT, ClientMask(m), m.shift)
  }

  /** Shift on the seat is as the tracker has it. */
  predicate SeatFollows(s: Keyboard) {
    (KEY_LEFTSHIFT in s.seat <==> KEY_LEFTSHIFT in s.held) && KEY_RIGHTSHIFT !in s.seat
  }

  /** A message about Shift, with modifiers `held` known: a binding sees the mask of the new state. */
  lemma ShiftInjected(s: Keyboard, held: Mods, on: bool, grabs: Bindings)
    requires s.held == HeldFor(held)
    ensures var s' := Injected(s, KeyMsg(KEY_LEFTSHIFT, on), grabs);
            && s'.held == HeldFor(held.(shift := on))
            && if grabs(KEY_LEFTSHIFT, ClientMask(held.(shift := on)), on) then s'.seat == s.seat
               else s'.seat == Toggled(s.seat, KEY_LEFTSHIFT, on)
  {
    HeldToggled(held, on);
    MaskForMods(held.(shift := on));
  }

  ghost predicate NoShift(msgs: seq<KeyMsg>) {
    forall i :: 0 <= i < |msgs| ==> msgs[i].keycode != KEY_LEFTSHIFT && msgs[i].keycode != KEY_RIGHTSHIFT
  }

  lemma {:induction false} NoShiftInjected(s: Keyboard, msgs: seq<KeyMsg>, grabs: Bindings)
    requires NoShift(msgs)
    ensures var s' := InjectedAll(s, msgs, grabs);
            && (KEY_LEFTSHIFT in s'.seat <==> KEY_LEFTSHIFT in s.seat) && (KEY_RIGHTSHIFT in s'.seat <==> KEY_RIGHTSHIFT in s.seat)
            && (KEY_LEFTSHIFT in s'.held <==> KEY_LEFTSHIFT in s.held)
  {
    if msgs != [] { NoShiftInjected(s, msgs[..|msgs| - 1], grabs); }
  }

  lemma ShiftFirst(prev: Mods, now: Mods)
    ensures ModifierMsgs(prev, now)
         == Change(prev.shift, now.shift, KEY_LEFTSHIFT)
            + (Change(prev.ctrl, now.ctrl, KEY_LEFTCTRL) + Change(prev.alt, now.alt, KEY_LEFTALT)
               + Change(prev.super, now.super, KEY_LEFTMETA))
  {
    FourAppended([], Change(prev.shift, now.shift, KEY_LEFTSHIFT), Change(prev.ctrl, now.ctrl, KEY_LEFTCTRL),
                 Change(prev.alt, now.alt, KEY_LEFTALT), Change(prev.super, now.super, KEY_LEFTMETA));
  }

  lemma OthersNoShift(prev: Mods, now: Mods)
    ensures NoShift(Change(prev.ctrl, now.ctrl, KEY_LEFTCTRL) + Change(prev.alt, now.alt, KEY_LEFTALT)
                    + Change(prev.super, now.super, KEY_LEFTMETA))
  {
  }

  lemma ShiftChangeFollows(s: Keyboard, held: Mods, was: bool, now: bool, grabs: Bindings)
    requires s.held == HeldFor(held) && SeatFollows(s) && SparesShift(grabs)
    ensures SeatFollows(InjectedAll(s, Change(was, now, KEY_LEFTSHIFT), grabs))
  {
    if was != now {
      InjectedOne(s, KeyMsg(KEY_LEFTSHIFT, now), grabs);
      ShiftInjected(s, held, now, grabs);
      assert !grabs(KEY_LEFTSHIFT, ClientMask(held.(shift := now)), held.(shift := now).shift);
      ShiftInHeld(held.(shift := now));
    }
  }

  lemma {:induction false} ModifiersFollow(s: Keyboard, held: Mods, prev: Mods, now: Mods, grabs: Bindings)
    requires s.held == HeldFor(held) && SeatFollows(s) && SparesShift(grabs)
    ensures SeatFollows(InjectedAll(s, ModifierMsgs(prev, now), grabs))
  {
    var a := Change(prev.shift, now.shift, KEY_LEFTSHIFT);
    var rest := Change(prev.ctrl, now.ctrl, KEY_LEFTCTRL) + Change(prev.alt, now.alt, KEY_LEFTALT)
                + Change(prev.super, now.super, KEY_LEFTMETA);
    ShiftFirst(prev, now);
    OthersNoShift(prev, now);
    ShiftChangeFollows(s, held, prev.shift, now.shift, grabs);
    InjectedConcat(s, a, rest, grabs);
    NoShiftInjected(InjectedAll(s, a, grabs), rest, grabs);
  }

  lemma ToggleFollows(s: Keyboard, held: Mods, event: KeyEvent, realShift: bool, grabs: Bindings)
    requires s.held == HeldFor(held) && SeatFollows(s) && SparesShift(grabs) && Forwarded(event).Some?
    ensures var s' := InjectedAll(s, Toggle(event, realShift), grabs);
            && SeatFollows(s') && s'.held == HeldFor(if Brackets(event, realShift) then held.(shift := !realShift) else held)
  {
    if Brackets(event, realShift) {
      InjectedOne(s, KeyMsg(KEY_LEFTSHIFT, !realShift), grabs);
      ShiftInjected(s, held, !realShift, grabs);
      assert !grabs(KEY_LEFTSHIFT, ClientMask(held.(shift := !realShift)), held.(shift := !realShift).shift);
    }
  }

  /** The key itself, and Shift put back after it. */
  lemma BackFollows(s: Keyboard, held: Mods, key: KeyMsg, realShift: bool, grabs: Bindings)
    requires s.held == HeldFor(held) && SeatFollows(s) && SparesShift(grabs) && ModifierBit(key.keycode).None?
    ensures SeatFollows(InjectedAll(s, [key], grabs))
    ensures SeatFollows(InjectedAll(s, [key] + [KeyMsg(KEY_LEFTSHIFT, realShift)], grabs))
  {
    NoShiftInjected(s, [key], grabs);
    InjectedOne(s, key, grabs);
    var s1 := Injected(s, key, grabs);
    InjectedConcat(s, [key], [KeyMsg(KEY_LEFTSHIFT, realShift)], grabs);
    ShiftChangeFollows(s1, held, !realShift, realShift, grabs);
  }

  lemma KeyFollows(s: Keyboard, held: Mods, event: KeyEvent, realShift: bool, grabs: Bindings)
    requires s.held == HeldFor(held) && SeatFollows(s) && SparesShift(grabs)
    ensures SeatFollows(InjectedAll(s, ConvertKeyboard(event, realShift), grabs))
  {
    if Forwarded(event).Some? {
      var key := Forwarded(event).value;
      var toggle := Toggle(event, realShift);
      ToggleFollows(s, held, event, realShift, grabs);
      var s1 := InjectedAll(s, toggle, grabs);
      if Brackets(event, realShift) {
        BackFollows(s1, held.(shift := !realShift), key, realShift, grabs);
        InjectedConcat(s, toggle, [key] + [KeyMsg(KEY_LEFTSHIFT, realShift)], grabs);
        assert ConvertKeyboard(event, realShift) == toggle + ([key] + [KeyMsg(KEY_LEFTSHIFT, realShift)]);
      } else {
        BackFollows(s1, held, key, realShift, grabs);
        assert ConvertKeyboard(event, realShift) == [key];
      }
    }
  }

  lemma EventFollows(s: Keyboard, held: Mods, mods: Mods, e: ClientEvent, grabs: Bindings)
    requires s.held == HeldFor(held) && SeatFollows(s) && SparesShift(grabs)
    ensures SeatFollows(InjectedAll(s, Sent(mods, e), grabs))
  {
    match e {
      case Key(event) => KeyFollows(s, held, event, mods.shift, grabs);
      case ModifiersChanged(now) => ModifiersFollow(s, held, mods, now, grabs);
    }
  }

  lemma FollowsOnce(mods: seq<Mods>, servers: seq<Keyboard>, es: seq<ClientEvent>, grabs: Bindings, n: nat)
    requires Run(mods, servers, es, grabs) && n < |es| && SparesShift(grabs) && SeatFollows(servers[n])
    ensures SeatFollows(servers[n + 1])
  {
    RunHolds(mods, servers, es, grabs, n);
    assert RunStep(mods, servers, es, grabs, n);
    EventFollows(servers[n], Known(mods[n], Missing(mods, es, n)), mods[n], es[n], grabs);
  }

  lemma {:induction false} RunFollows(mods: seq<Mods>, servers: seq<Keyboard>, es: seq<ClientEvent>, grabs: Bindings, n: nat)
    requires Run(mods, servers, es, grabs) && n <= |es| && SparesShift(grabs)
    ensures SeatFollows(servers[n])
  {
    if n > 0 {
      RunFollows(mods, servers, es, grabs, n - 1);
      FollowsOnce(mods, servers, es, grabs, n - 1);
    }
  }

  /** As long as no binding takes Shift, in every connection a letter comes out in the case the
      client meant, whatever its caps lock, except exactly a capital typed with a Shift that has
      been held since before the connection. */
  lemma LetterRightIff(mods: seq<Mods>, servers: seq<Keyboard>, es: seq<ClientEvent>, grabs: Bindings, n: nat)
    requires Run(mods, servers, es, grabs) && n < |es| && SparesShift(grabs)
    requires es[n].Key? && Forwarded(es[n].event).Some? && Correctable(es[n].event)
    ensures LetterRight(servers[n], es[n].event, mods[n].shift, grabs)
       <==> !(Missing(mods, es, n).shift && WantsUpper(es[n].event))
  {
    RunHolds(mods, servers, es, grabs, n);
    RunFollows(mods, servers, es, grabs, n);
    var held := Known(mods[n], Missing(mods, es, n));
    ToggleFollows(servers[n], held, es[n].event, mods[n].shift, grabs);
    ShiftInHeld(held);
    ShiftInHeld(held.(shift := !mods[n].shift));
  }

  lemma ShiftInHeld(m: Mods)
    ensures KEY_LEFTSHIFT in HeldFor(m) <==> m.shift
  {
  }

  // ----- and only then

  const CAPITAL := KeyEvent(Some(KeyA), true, Some("A"))
  const SMALL := KeyEvent(Some(KeyA), true, Some("a"))

  lemma LettersForwarded()
    ensures Forwarded(CAPITAL).Some? && Correctable(CAPITAL) && WantsUpper(CAPITAL)
    ensures Forwarded(SMALL).Some? && Correctable(SMALL) && !WantsUpper(SMALL)
  {
  }

  /** If some binding takes Shift in some state of the other modifiers, there is a connection, started
      with nothing held, in which a letter comes out in the wrong case. */
  lemma TakingShiftSpoilsLetters(grabs: Bindings, m: Mods)
    returns (mods: seq<Mods>, servers: seq<Keyboard>, es: seq<ClientEvent>, n: nat)
    requires grabs(KEY_LEFTSHIFT, ClientMask(m), m.shift)
    ensures Run(mods, servers, es, grabs) && mods[0] == NO_MODS && n < |es|
    ensures es[n].Key? && Forwarded(es[n].event).Some? && Correctable(es[n].event)
    ensures !LetterRight(servers[n], es[n].event, mods[n].shift, grabs)
  {
    LettersForwarded();
    if m.shift {
      mods, servers, es, n := TakenPress(grabs, m);
    } else if grabs(KEY_LEFTSHIFT, ClientMask(m.(shift := true)), true) {
      mods, servers, es, n := TakenPress(grabs, m.(shift := true));
    } else {
      mods, servers, es, n := TakenRelease(grabs, m);
    }
  }

  lemma OthersInjected(m: Mods, grabs: Bindings)
    requires !m.shift
    ensures var s := InjectedAll(CLEAN, ModifierMsgs(NO_MODS, m), grabs);
            s.held == HeldFor(m) && KEY_LEFTSHIFT !in s.seat && KEY_RIGHTSHIFT !in s.seat
  {
    ModifiersInjected(CLEAN, NO_MODS, NO_MODS, m, grabs);
    assert HeldFor(NO_MODS) == {};
    NoShiftInjected(CLEAN, ModifierMsgs(NO_MODS, m), grabs);
  }

  lemma PressTaken(s: Keyboard, m: Mods, grabs: Bindings)
    requires m.shift && s.held == HeldFor(m.(shift := false)) && KEY_LEFTSHIFT !in s.seat && KEY_RIGHTSHIFT !in s.seat
    requires grabs(KEY_LEFTSHIFT, ClientMask(m), true)
    ensures !LetterRight(s, CAPITAL, false, grabs)
  {
    LettersForwarded();
    InjectedOne(s, KeyMsg(KEY_LEFTSHIFT, true), grabs);
    ShiftInjected(s, m.(shift := false), true, grabs);
    assert m.(shift := false).(shift := true) == m;
  }

  lemma TakenPress(grabs: Bindings, m: Mods)
    returns (mods: seq<Mods>, servers: seq<Keyboard>, es: seq<ClientEvent>, n: nat)
    requires m.shift && grabs(KEY_LEFTSHIFT, ClientMask(m), true)
    ensures Run(mods, servers, es, grabs) && mods[0] == NO_MODS && n < |es| && es[n] == Key(CAPITAL)
    ensures !LetterRight(servers[n], CAPITAL, mods[n].shift, grabs)
  {
    var others := m.(shift := false);
    OthersInjected(others, grabs);
    PressTaken(InjectedAll(CLEAN, ModifierMsgs(NO_MODS, others), grabs), m, grabs);
    mods, servers, es := ThreeEvents(ModifiersChanged(others), Key(CAPITAL), Key(CAPITAL), grabs);
    n := 1;
  }

  lemma ReleaseTaken(s: Keyboard, m: Mods, grabs: Bindings)
    requires !m.shift && s.held == HeldFor(m) && grabs(KEY_LEFTSHIFT, ClientMask(m), false)
    requires !grabs(KEY_LEFTSHIFT, ClientMask(m.(shift := true)), true)
    ensures !LetterRight(InjectedAll(s, ModifierMsgs(m, m.(shift := true)), grabs), SMALL, true, grabs)
  {
    LettersForwarded();
    var shifted := m.(shift := true);
    assert ModifierMsgs(m, shifted) == [KeyMsg(KEY_LEFTSHIFT, true)];
    InjectedOne(s, KeyMsg(KEY_LEFTSHIFT, true), grabs);
    ShiftInjected(s, m, true, grabs);
    var s2 := Injected(s, KeyMsg(KEY_LEFTSHIFT, true), grabs);
    InjectedOne(s2, KeyMsg(KEY_LEFTSHIFT, false), grabs);
    ShiftInjected(s2, shifted, false, grabs);
    assert shifted.(shift := false) == m;
  }

  lemma TakenRelease(grabs: Bindings, m: Mods)
    returns (mods: seq<Mods>, servers: seq<Keyboard>, es: seq<ClientEvent>, n: nat)
    requires !m.shift && grabs(KEY_LEFTSHIFT, ClientMask(m), false)
    requires !grabs(KEY_LEFTSHIFT, ClientMask(m.(shift := true)), true)
    ensures Run(mods, servers, es, grabs) && mods[0] == NO_MODS && n < |es| && es[n] == Key(SMALL)
    ensures !LetterRight(servers[n], SMALL, mods[n].shift, grabs)
  {
    OthersInjected(m, grabs);
    ReleaseTaken(InjectedAll(CLEAN, ModifierMsgs(NO_MODS, m), grabs), m, grabs);
    mods, servers, es := ThreeEvents(ModifiersChanged(m), ModifiersChanged(m.(shift := true)), Key(SMALL), grabs);
    n := 2;
  }

  lemma ThreeEvents(e: ClientEvent, f: ClientEvent, g: ClientEvent, grabs: Bindings)
    returns (mods: seq<Mods>, servers: seq<Keyboard>, es: seq<ClientEvent>)
    ensures Run(mods, servers, es, grabs) && mods[0] == NO_MODS && es == [e, f, g]
    ensures mods[1] == ModsAfter(NO_MODS, e) && mods[2] == ModsAfter(mods[1], f)
    ensures servers[1] == InjectedAll(CLEAN, Sent(NO_MODS, e), grabs) && servers[2] == InjectedAll(servers[1], Sent(mods[1], f), grabs)
  {
    var m1 := ModsAfter(NO_MODS, e);
    var m2 := ModsAfter(m1, f);
    var s1 := InjectedAll(CLEAN, Sent(NO_MODS, e), grabs);
    var s2 := InjectedAll(s1, Sent(m1, f), grabs);
    mods, servers, es := [NO_MODS, m1, m2, ModsAfter(m2, g)], [CLEAN, s1, s2, InjectedAll(s2, Sent(m2, g), grabs)], [e, f, g];
    assert RunStep(mods, servers, es, grabs, 0) && RunStep(mods, servers, es, grabs, 1) && RunStep(mods, servers, es, grabs, 2);
  }

  /** Shift held over a reconnect: the masks differ, and a capital comes out small. */
  lemma ShiftHeldOverReconnect(grabs: Bindings)
    ensures var held := Mods(true, false, false, false);
            && Run([held], [CLEAN], [], grabs) && MaskOf(CLEAN.held) != ClientMask(held)
            && Correctable(CAPITAL) && !LetterRight(CLEAN, CAPITAL, true, grabs)
  {
    LettersForwarded();
    var held := Mods(true, false, false, false);
    MaskForMods(NO_MODS);
    MaskTells(NO_MODS, held);
    assert HeldFor(NO_MODS) == {};
  }
}
