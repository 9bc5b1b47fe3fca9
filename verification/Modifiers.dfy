/**
 Keyboard input from the client to the server's seat: the client turns physical keys and its
 modifier state into key messages, the server keeps the held modifiers and the pressed keys.
 */
module Modifiers {
  import opened Wrappers

  const KEY_LEFTCTRL: nat := 29
  const KEY_LEFTSHIFT: nat := 42
  const KEY_RIGHTSHIFT: nat := 54
  const KEY_LEFTALT: nat := 56
  const KEY_RIGHTCTRL: nat := 97
  const KEY_RIGHTALT: nat := 100
  const KEY_LEFTMETA: nat := 125
  const KEY_RIGHTMETA: nat := 126

  const MOD_SHIFT: bv32 := 0x01
  const MOD_CTRL: bv32 := 0x04
  const MOD_ALT: bv32 := 0x08
  const MOD_SUPER: bv32 := 0x40

  // ----- the client's keys

  /** Physical keys; `Unmapped` stands for every key without an evdev code in the table. */
  datatype KeyCode =
    | Escape | Digit1 | Digit2 | Digit3 | Digit4 | Digit5 | Digit6 | Digit7 | Digit8 | Digit9 | Digit0 | Minus
    | Equal | Backspace | Tab | KeyQ | KeyW | KeyE | KeyR | KeyT | KeyY | KeyU | KeyI | KeyO | KeyP | BracketLeft
    | BracketRight | Enter | ControlLeft | KeyA | KeyS | KeyD | KeyF | KeyG | KeyH | KeyJ | KeyK | KeyL | Semicolon
    | Quote | Backquote | ShiftLeft | Backslash | KeyZ | KeyX | KeyC | KeyV | KeyB | KeyN | KeyM | Comma | Period
    | Slash | ShiftRight | AltLeft | Space | CapsLock | F1 | F2 | F3 | F4 | F5 | F6 | F7 | F8 | F9 | F10 | NumLock
    | ScrollLock | F11 | F12 | ControlRight | AltRight | Home | ArrowUp | PageUp | ArrowLeft | ArrowRight | End
    | ArrowDown | PageDown | Insert | Delete | SuperLeft | SuperRight | Unmapped

  predicate IsModifierKey(code: KeyCode) {
    || code.ShiftLeft? || code.ShiftRight? || code.ControlLeft? || code.ControlRight?
    || code.AltLeft? || code.AltRight? || code.SuperLeft? || code.SuperRight?
  }

  /** The table of keys, block by block; a key in none of them has no code. */
  function Evdev(code: KeyCode): (r: Option<nat>)
    ensures r.Some? ==> (IsModifierCode(r.value) <==> IsModifierKey(code))
  {
    if IsModifierKey(code) then ModifierCode(code)
    else if DigitRow(code).Some? then DigitRow(code)
    else if UpperRow(code).Some? then UpperRow(code)
    else if HomeRow(code).Some? then HomeRow(code)
    else if LowerRow(code).Some? then LowerRow(code)
    else if FunctionRow(code).Some? then FunctionRow(code)
    else CursorKeys(code)
  }

  function ModifierCode(code: KeyCode): (r: Option<nat>)
    requires IsModifierKey(code)
    ensures r.Some? && IsModifierCode(r.value)
  {
    match code
    case ControlLeft => Some(29)
    case ShiftLeft => Some(42)
    case ShiftRight => Some(54)
    case AltLeft => Some(56)
    case ControlRight => Some(97)
    case AltRight => Some(100)
    case SuperLeft => Some(125)
    case SuperRight => Some(126)
  }

  function DigitRow(code: KeyCode): (r: Option<nat>)
    ensures r.Some? ==> !IsModifierCode(r.value) && 0 < r.value < 15
  {
    match code
    case Escape => Some(1)
    case Digit1 => Some(2)
    case Digit2 => Some(3)
    case Digit3 => Some(4)
    case Digit4 => Some(5)
    case Digit5 => Some(6)
    case Digit6 => Some(7)
    case Digit7 => Some(8)
    case Digit8 => Some(9)
    case Digit9 => Some(10)
    case Digit0 => Some(11)
    case Minus => Some(12)
    case Equal => Some(13)
    case Backspace => Some(14)
    case _ => None
  }

  function UpperRow(code: KeyCode): (r: Option<nat>)
    ensures r.Some? ==> !IsModifierCode(r.value) && 15 <= r.value < 29
  {
    match code
    case Tab => Some(15)
    case KeyQ => Some(16)
    case KeyW => Some(17)
    case KeyE => Some(18)
    case KeyR => Some(19)
    case KeyT => Some(20)
    case KeyY => Some(21)
    case KeyU => Some(22)
    case KeyI => Some(23)
    case KeyO => Some(24)
    case KeyP => Some(25)
    case BracketLeft => Some(26)
    case BracketRight => Some(27)
    case Enter => Some(28)
    case _ => None
  }

  function HomeRow(code: KeyCode): (r: Option<nat>)
    ensures r.Some? ==> !IsModifierCode(r.value) && 30 <= r.value < 42
  {
    match code
    case KeyA => Some(30)
    case KeyS => Some(31)
    case KeyD => Some(32)
    case KeyF => Some(33)
    case KeyG => Some(34)
    case KeyH => Some(35)
    case KeyJ => Some(36)
    case KeyK => Some(37)
    case KeyL => Some(38)
    case Semicolon => Some(39)
    case Quote => Some(40)
    case Backquote => Some(41)
    case _ => None
  }

  function LowerRow(code: KeyCode): (r: Option<nat>)
    ensures r.Some? ==> !IsModifierCode(r.value) && 43 <= r.value < 54
  {
    match code
    case Backslash => Some(43)
    case KeyZ => Some(44)
    case KeyX => Some(45)
    case KeyC => Some(46)
    case KeyV => Some(47)
    case KeyB => Some(48)
    case KeyN => Some(49)
    case KeyM => Some(50)
    case Comma => Some(51)
    case Period => Some(52)
    case Slash => Some(53)
    case _ => None
  }

  function FunctionRow(code: KeyCode): (r: Option<nat>)
    ensures r.Some? ==> !IsModifierCode(r.value) && 57 <= r.value < 89
  {
    match code
    case Space => Some(57)
    case CapsLock => Some(58)
    case F1 => Some(59)
    case F2 => Some(60)
    case F3 => Some(61)
    case F4 => Some(62)
    case F5 => Some(63)
    case F6 => Some(64)
    case F7 => Some(65)
    case F8 => Some(66)
    case F9 => Some(67)
    case F10 => Some(68)
    case NumLock => Some(69)
    case ScrollLock => Some(70)
    case F11 => Some(87)
    case F12 => Some(88)
    case _ => None
  }

  function CursorKeys(code: KeyCode): (r: Option<nat>)
    ensures r.Some? ==> !IsModifierCode(r.value) && 102 <= r.value < 112
  {
    match code
    case Home => Some(102)
    case ArrowUp => Some(103)
    case PageUp => Some(104)
    case ArrowLeft => Some(105)
    case ArrowRight => Some(106)
    case End => Some(107)
    case ArrowDown => Some(108)
    case PageDown => Some(109)
    case Insert => Some(110)
    case Delete => Some(111)
    case _ => None
  }

  // ----- the server's modifier bits

  predicate IsModifierCode(keycode: nat) {
    || keycode == KEY_LEFTSHIFT || keycode == KEY_RIGHTSHIFT || keycode == KEY_LEFTCTRL || keycode == KEY_RIGHTCTRL
    || keycode == KEY_LEFTALT || keycode == KEY_RIGHTALT || keycode == KEY_LEFTMETA || keycode == KEY_RIGHTMETA
  }

  function ModifierBit(keycode: nat): (r: Option<bv32>)
    ensures r.Some? <==> IsModifierCode(keycode)
  {
    if keycode == KEY_LEFTSHIFT || keycode == KEY_RIGHTSHIFT then Some(MOD_SHIFT)
    else if keycode == KEY_LEFTCTRL || keycode == KEY_RIGHTCTRL then Some(MOD_CTRL)
    else if keycode == KEY_LEFTALT || keycode == KEY_RIGHTALT then Some(MOD_ALT)
    else if keycode == KEY_LEFTMETA || keycode == KEY_RIGHTMETA then Some(MOD_SUPER)
    else None
  }

  // ----- the client

  datatype KeyMsg = KeyMsg(keycode: nat, pressed: bool)

  datatype Mods = Mods(shift: bool, ctrl: bool, alt: bool, super: bool)

  const NO_MODS := Mods(false, false, false, false)

  /** A key event; `text` is what the key stands for with the client's layout and caps lock. */
  datatype KeyEvent = KeyEvent(physical: Option<KeyCode>, pressed: bool, text: Option<string>)

  predicate IsLetter(c: char) { 'a' <= c <= 'z' || 'A' <= c <= 'Z' }

  /** The key message itself, if the key is forwarded at all. */
  function Forwarded(event: KeyEvent): Option<KeyMsg> {
    if event.physical.None? || IsModifierKey(event.physical.value) || event.physical.value == CapsLock then None
    else if Evdev(event.physical.value).None? then None
    else Some(KeyMsg(Evdev(event.physical.value).value, event.pressed))
  }

  /** The press of a single letter, whose case the server should reproduce. */
  predicate Correctable(event: KeyEvent) {
    event.pressed && event.text.Some? && |event.text.value| == 1 && IsLetter(event.text.value[0])
  }

  predicate WantsUpper(event: KeyEvent)
    requires Correctable(event)
  {
    'A' <= event.text.value[0] <= 'Z'
  }

  function ConvertKeyboard(event: KeyEvent, realShift: bool): seq<KeyMsg> {
    match Forwarded(event)
    case None => []
    case Some(key) =>
      if Correctable(event) && WantsUpper(event) != realShift
      then [KeyMsg(KEY_LEFTSHIFT, WantsUpper(event)), key, KeyMsg(KEY_LEFTSHIFT, realShift)]
      else [key]
  }

  function Change(was: bool, now: bool, keycode: nat): seq<KeyMsg> {
    if was == now then [] else [KeyMsg(keycode, now)]
  }

  function ModifierMsgs(prev: Mods, now: Mods): seq<KeyMsg> {
    Change(prev.shift, now.shift, KEY_LEFTSHIFT) + Change(prev.ctrl, now.ctrl, KEY_LEFTCTRL)
    + Change(prev.alt, now.alt, KEY_LEFTALT) + Change(prev.super, now.super, KEY_LEFTMETA)
  }

  datatype ClientEvent = Key(event: KeyEvent) | ModifiersChanged(now: Mods)

  function Sent(mods: Mods, e: ClientEvent): seq<KeyMsg> {
    match e
    case Key(event) => ConvertKeyboard(event, mods.shift)
    case ModifiersChanged(now) => ModifierMsgs(mods, now)
  }

  function ModsAfter(mods: Mods, e: ClientEvent): Mods {
    if e.ModifiersChanged? then e.now else mods
  }

  class App {
    var modifiers: Mods
    var inputTx: seq<KeyMsg>

    constructor ()
      ensures modifiers == NO_MODS && inputTx == []
    {
      modifiers, inputTx := NO_MODS, [];
    }

    method Emit(was: bool, now: bool, keycode: nat)
      modifies this`inputTx
      ensures inputTx == old(inputTx) + Change(was, now, keycode)
    {
      if was != now {
        inputTx := inputTx + [KeyMsg(keycode, now)];
      }
    }

    method OnWindowEvent(e: ClientEvent)
      modifies this
      ensures modifiers == ModsAfter(old(modifiers), e) && inputTx == old(inputTx) + Sent(old(modifiers), e)
    {
      match e {
        case Key(event) =>
          inputTx := inputTx + ConvertKeyboard(event, modifiers.shift);
        case ModifiersChanged(now) =>
          EmitModifiers(modifiers, now);
          modifiers := now;
      }
    }

    method EmitModifiers(prev: Mods, now: Mods)
      modifies this`inputTx
      ensures inputTx == old(inputTx) + ModifierMsgs(prev, now)
    {
      FourAppended(inputTx, Change(prev.shift, now.shift, KEY_LEFTSHIFT), Change(prev.ctrl, now.ctrl, KEY_LEFTCTRL),
                   Change(prev.alt, now.alt, KEY_LEFTALT), Change(prev.super, now.super, KEY_LEFTMETA));
      Emit(prev.shift, now.shift, KEY_LEFTSHIFT);
      Emit(prev.ctrl, now.ctrl, KEY_LEFTCTRL);
      Emit(prev.alt, now.alt, KEY_LEFTALT);
      Emit(prev.super, now.super, KEY_LEFTMETA);
    }
  }

  lemma FourAppended<T>(s: seq<T>, a: seq<T>, b: seq<T>, c: seq<T>, d: seq<T>)
    ensures s + a + b + c + d == s + (a + b + c + d)
  {
  }

  // ----- the server

  /** Which key events a window manager takes for itself: keycode, modifier mask, press or release. */
  type Bindings = (nat, bv32, bool) -> bool

  datatype Keyboard = Keyboard(held: set<nat>, pressed: set<nat>, seat: set<nat>)

  const CLEAN := Keyboard({}, {}, {})

  function Bit(on: bool, bit: bv32): bv32 { if on then bit else 0 }

  function MaskOf(held: set<nat>): bv32 {
    Bit(KEY_LEFTSHIFT in held || KEY_RIGHTSHIFT in held, MOD_SHIFT)
    | Bit(KEY_LEFTCTRL in held || KEY_RIGHTCTRL in held, MOD_CTRL)
    | Bit(KEY_LEFTALT in held || KEY_RIGHTALT in held, MOD_ALT)
    | Bit(KEY_LEFTMETA in held || KEY_RIGHTMETA in held, MOD_SUPER)
  }

  function Toggled(keys: set<nat>, k: nat, down: bool): set<nat> {
    if down then keys + {k} else keys - {k}
  }

  function HeldAfter(held: set<nat>, msg: KeyMsg): set<nat> {
    if ModifierBit(msg.keycode).None? then held else Toggled(held, msg.keycode, msg.pressed)
  }

  function Injected(s: Keyboard, msg: KeyMsg, grabs: Bindings): Keyboard {
    var held := HeldAfter(s.held, msg);
    if grabs(msg.keycode, MaskOf(held), msg.pressed) then s.(held := held)
    else Keyboard(held, Toggled(s.pressed, msg.keycode, msg.pressed), Toggled(s.seat, msg.keycode, msg.pressed))
  }

  function InjectedAll(s: Keyboard, msgs: seq<KeyMsg>, grabs: Bindings): Keyboard {
    if msgs == [] then s else Injected(InjectedAll(s, msgs[..|msgs| - 1], grabs), msgs[|msgs| - 1], grabs)
  }

  class WayRay {
    /** The modifier tracker's held keys, the keys to release on disconnect, the seat's own keys. */
    var held: set<nat>
    var pressedKeys: set<nat>
    var seat: set<nat>

    function State(): Keyboard
      reads this
    {
      Keyboard(held, pressedKeys, seat)
    }

    constructor ()
      ensures State() == CLEAN
    {
      held, pressedKeys, seat := {}, {}, {};
    }

    method Mask() returns (mask: bv32)
      requires forall k :: k in held ==> ModifierBit(k).Some?
      ensures mask == MaskOf(held)
    {
      mask := 0;
      var rest := held;
      while rest != {}
        invariant rest <= held
        invariant mask == MaskOf(held - rest)
        decreases rest
      {
        var k :| k in rest;
        MaskWith(held - rest, k);
        assert held - (rest - {k}) == (held - rest) + {k};
        rest := rest - {k};
        mask := mask | ModifierBit(k).value;
      }
      assert held - rest == held;
    }

    method OnKey(keycode: nat, pressed: bool)
      modifies this`held
      ensures held == HeldAfter(old(held), KeyMsg(keycode, pressed))
    {
      if ModifierBit(keycode).None? {
        return;
      }
      if pressed {
        held := held + {keycode};
      } else {
        held := held - {keycode};
      }
    }

    method InjectNetworkInput(msg: KeyMsg, grabs: Bindings)
      requires forall k :: k in held ==> ModifierBit(k).Some?
      modifies this
      ensures State() == Injected(old(State()), msg, grabs)
      ensures forall k :: k in held ==> ModifierBit(k).Some?
    {
      OnKey(msg.keycode, msg.pressed);
      var modifiers := Mask();
      if grabs(msg.keycode, modifiers, msg.pressed) {
        return;
      }
      if msg.pressed {
        seat := seat + {msg.keycode};
        pressedKeys := pressedKeys + {msg.keycode};
      } else {
        seat := seat - {msg.keycode};
        pressedKeys := pressedKeys - {msg.keycode};
      }
    }

    /** On disconnect every key the client left down is released on the seat. */
    method ReleaseAllKeys()
      modifies this
      ensures held == {} && pressedKeys == {} && seat == old(seat) - old(pressedKeys)
    {
      held := {};
      if pressedKeys == {} {
        return;
      }
      var down := pressedKeys;
      pressedKeys := {};
      while down != {}
        invariant down <= old(pressedKeys)
        invariant seat == old(seat) - (old(pressedKeys) - down)
        invariant held == {} && pressedKeys == {}
        decreases down
      {
        var keycode :| keycode in down;
        down := down - {keycode};
        seat := seat - {keycode};
      }
    }
  }

  lemma MaskWith(held: set<nat>, k: nat)
    requires ModifierBit(k).Some?
    ensures MaskOf(held + {k}) == MaskOf(held) | ModifierBit(k).value
  {
  }

  // ----- one message after another

  lemma {:induction false} InjectedConcat(s: Keyboard, a: seq<KeyMsg>, b: seq<KeyMsg>, grabs: Bindings)
    ensures InjectedAll(s, a + b, grabs) == InjectedAll(InjectedAll(s, a, grabs), b, grabs)
  {
    if b == [] {
      assert a + b == a;
    } else {
      InjectedConcat(s, a, b[..|b| - 1], grabs);
      assert (a + b)[..|a + b| - 1] == a + b[..|b| - 1];
    }
  }

  lemma InjectedOne(s: Keyboard, msg: KeyMsg, grabs: Bindings)
    ensures InjectedAll(s, [msg], grabs) == Injected(s, msg, grabs)
  {
    assert [msg][..0] == [];
  }

  lemma InjectedThree(s: Keyboard, a: KeyMsg, b: KeyMsg, c: KeyMsg, grabs: Bindings)
    ensures InjectedAll(s, [a, b, c], grabs) == Injected(Injected(Injected(s, a, grabs), b, grabs), c, grabs)
  {
    InjectedOne(s, a, grabs);
    assert [a, b, c][..2] == [a, b] && [a, b][..1] == [a];
  }

  // ----- keys on the seat

  /** What will be released on disconnect is exactly what the seat has down. */
  lemma {:induction false} SeatIsTracked(s: Keyboard, msgs: seq<KeyMsg>, grabs: Bindings)
    requires s.pressed == s.seat
    ensures InjectedAll(s, msgs, grabs).pressed == InjectedAll(s, msgs, grabs).seat
  {
    if msgs != [] { SeatIsTracked(s, msgs[..|msgs| - 1], grabs); }
  }

  /** Keys whose last message was a press. */
  function Down(msgs: seq<KeyMsg>): set<nat> {
    if msgs == [] then {}
    else Toggled(Down(msgs[..|msgs| - 1]), msgs[|msgs| - 1].keycode, msgs[|msgs| - 1].pressed)
  }

  /** A message leaves a key down that the client has let go of exactly if it is the release of a
      key that is down on the seat and a binding takes it. */
  lemma SticksIff(s: Keyboard, down: set<nat>, msg: KeyMsg, grabs: Bindings)
    requires s.seat <= down
    ensures !(Injected(s, msg, grabs).seat <= Toggled(down, msg.keycode, msg.pressed))
       <==> !msg.pressed && msg.keycode in s.seat && grabs(msg.keycode, MaskOf(HeldAfter(s.held, msg)), false)
  {
    if !msg.pressed && msg.keycode in s.seat && grabs(msg.keycode, MaskOf(HeldAfter(s.held, msg)), false) {
      assert msg.keycode in Injected(s, msg, grabs).seat;
    }
  }

  /** If no window manager takes key releases for itself, the seat never has a key down that the
      client has released. */
  lemma {:induction false} NothingSticks(msgs: seq<KeyMsg>, grabs: Bindings)
    requires forall k, mask :: !grabs(k, mask, false)
    ensures InjectedAll(CLEAN, msgs, grabs).seat <= Down(msgs)
  {
    if msgs != [] { NothingSticks(msgs[..|msgs| - 1], grabs); }
  }

  /** A binding on a chord can take a release: the key then stays down on the seat after the client
      let go of everything, until the client disconnects. */
  lemma GrabbedReleaseSticks(grabs: Bindings)
    requires forall k, mask, pressed :: grabs(k, mask, pressed) <==> k == 30 && mask == MOD_SUPER
    ensures var msgs := [KeyMsg(30, true), KeyMsg(KEY_LEFTMETA, true), KeyMsg(30, false), KeyMsg(KEY_LEFTMETA, false)];
            Down(msgs) == {} && InjectedAll(CLEAN, msgs, grabs).seat == {30}
  {
    var a, b, c, d := KeyMsg(30, true), KeyMsg(KEY_LEFTMETA, true), KeyMsg(30, false), KeyMsg(KEY_LEFTMETA, false);
    assert MaskOf({}) == 0 && MaskOf({KEY_LEFTMETA}) == MOD_SUPER;
    var s1, s2 := Keyboard({}, {30}, {30}), Keyboard({KEY_LEFTMETA}, {30, KEY_LEFTMETA}, {30, KEY_LEFTMETA});
    Snoc([], a, CLEAN, grabs);
    assert [] + [a] == [a] && Injected(CLEAN, a, grabs) == s1;
    Snoc([a], b, CLEAN, grabs);
    assert [a] + [b] == [a, b] && Injected(s1, b, grabs) == s2;
    Snoc([a, b], c, CLEAN, grabs);
    assert [a, b] + [c] == [a, b, c] && Injected(s2, c, grabs) == s2;
    Snoc([a, b, c], d, CLEAN, grabs);
    assert [a, b, c] + [d] == [a, b, c, d];
  }

  lemma Snoc(msgs: seq<KeyMsg>, m: KeyMsg, s: Keyboard, grabs: Bindings)
    ensures Down(msgs + [m]) == Toggled(Down(msgs), m.keycode, m.pressed)
    ensures InjectedAll(s, msgs + [m], grabs) == Injected(InjectedAll(s, msgs, grabs), m, grabs)
  {
    assert (msgs + [m])[..|msgs|] == msgs;
  }

  /** Whatever a client did, a disconnect leaves a keyboard on which nothing is held. */
  method Disconnect(server: WayRay, msgs: seq<KeyMsg>, grabs: Bindings)
    requires server.State() == InjectedAll(CLEAN, msgs, grabs)
    modifies server
    ensures server.State() == CLEAN
  {
    SeatIsTracked(CLEAN, msgs, grabs);
    server.ReleaseAllKeys();
  }
}
