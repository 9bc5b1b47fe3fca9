/**
 The client's physical keys and the server's seat: what is held down here is held down there.
 */
module PhysicalKeys {
  import opened Wrappers
  import opened Modifiers
  import opened ModifierRuns

  // ----- the key table

  // the keys of the keyboard's rows, left to right, from the codes 1, 15, 30, 57 and 102 on

  const DIGITS: seq<KeyCode> := [
    Escape, Digit1, Digit2, Digit3, Digit4, Digit5, Digit6, Digit7, Digit8, Digit9, Digit0, Minus, Equal, Backspace]

  const UPPER: seq<KeyCode> := [
    Tab, KeyQ, KeyW, KeyE, KeyR, KeyT, KeyY, KeyU, KeyI, KeyO, KeyP, BracketLeft, BracketRight, Enter]

  const LOWER: seq<KeyCode> := [
    KeyA, KeyS, KeyD, KeyF, KeyG, KeyH, KeyJ, KeyK, KeyL, Semicolon, Quote, Backquote,
    ShiftLeft, Backslash, KeyZ, KeyX, KeyC, KeyV, KeyB, KeyN, KeyM, Comma, Period, Slash]

  const FUNCTION: seq<KeyCode> := [Space, CapsLock, F1, F2, F3, F4, F5, F6, F7, F8, F9, F10, NumLock, ScrollLock]

  const CURSOR: seq<KeyCode> := [
    Home, ArrowUp, PageUp, ArrowLeft, ArrowRight, End, ArrowDown, PageDown, Insert, Delete]

  /** The key with the code, by its place on the keyboard; the keys that lie beside the rows apart. */
  function KeyAt(code: nat): KeyCode {
    if code == 87 then F11
    else if code == 88 then F12
    else if 1 <= code <= |DIGITS| then DIGITS[code - 1]
    else if 15 <= code < 15 + |UPPER| then UPPER[code - 15]
    else if 30 <= code < 30 + |LOWER| then LOWER[code - 30]
    else if 57 <= code < 57 + |FUNCTION| then FUNCTION[code - 57]
    else if 102 <= code < 102 + |CURSOR| then CURSOR[code - 102]
    else Unmapped
  }

  lemma DigitAt(key: KeyCode, code: nat)
    requires DigitRow(key) == Some(code)
    ensures KeyAt(code) == key
  {
    assert DIGITS[code - 1] == key;
  }

  lemma UpperAt(key: KeyCode, code: nat)
    requires UpperRow(key) == Some(code)
    ensures KeyAt(code) == key
  {
    assert UPPER[code - 15] == key;
  }

  lemma HomeAt(key: KeyCode, code: nat)
    requires HomeRow(key) == Some(code)
    ensures KeyAt(code) == key
  {
    assert LOWER[code - 30] == key;
  }

  lemma LowerAt(key: KeyCode, code: nat)
    requires LowerRow(key) == Some(code)
    ensures KeyAt(code) == key
  {
    assert LOWER[code - 30] == key;
  }

  lemma FunctionAt(key: KeyCode, code: nat)
    requires FunctionRow(key) == Some(code)
    ensures KeyAt(code) == key
  {
    assert key == F11 || key == F12 || FUNCTION[code - 57] == key;
  }

  lemma CursorAt(key: KeyCode, code: nat)
    requires CursorKeys(key) == Some(code)
    ensures KeyAt(code) == key
  {
    assert CURSOR[code - 102] == key;
  }

  /** The modifier keys keep their sides. */
  lemma SidesKept()
    ensures Evdev(ShiftLeft) == Some(KEY_LEFTSHIFT) && Evdev(ShiftRight) == Some(KEY_RIGHTSHIFT)
    ensures Evdev(ControlLeft) == Some(KEY_LEFTCTRL) && Evdev(ControlRight) == Some(KEY_RIGHTCTRL)
    ensures Evdev(AltLeft) == Some(KEY_LEFTALT) && Evdev(AltRight) == Some(KEY_RIGHTALT)
    ensures Evdev(SuperLeft) == Some(KEY_LEFTMETA) && Evdev(SuperRight) == Some(KEY_RIGHTMETA)
  {
  }

  lemma ModifiersDistinct(a: KeyCode, b: KeyCode)
    requires IsModifierKey(a) && IsModifierKey(b) && ModifierCode(a) == ModifierCode(b)
    ensures a == b
  {
  }

  /** Every key but the modifiers has the code of its place. */
  lemma CodeOfPlace(key: KeyCode, code: nat)
    requires Evdev(key) == Some(code) && !IsModifierKey(key)
    ensures KeyAt(code) == key
  {
    if DigitRow(key).Some? { DigitAt(key, code); }
    else if UpperRow(key).Some? { UpperAt(key, code); }
    else if HomeRow(key).Some? { HomeAt(key, code); }
    else if LowerRow(key).Some? { LowerAt(key, code); }
    else if FunctionRow(key).Some? { FunctionAt(key, code); }
    else { CursorAt(key, code); }
  }

  /** No two keys share a code. */
  lemma CodesDistinct(a: KeyCode, b: KeyCode)
    requires Evdev(a).Some? && Evdev(a) == Evdev(b)
    ensures a == b
  {
    if IsModifierKey(a) {
      ModifiersDistinct(a, b);
    } else {
      CodeOfPlace(a, Evdev(a).value);
      CodeOfPlace(b, Evdev(a).value);
    }
  }

  // ----- keys held down

  /** The key's last event in the first `n` was a press. */
  predicate HeldDown(es: seq<ClientEvent>, n: nat, key: KeyCode)
    requires n <= |es|
  {
    n > 0 &&
    if es[n - 1].Key? && es[n - 1].event.physical == Some(key) then es[n - 1].event.pressed
    else HeldDown(es, n - 1, key)
  }

  /** No message is for the code. */
  predicate Silent(msgs: seq<KeyMsg>, code: nat) {
    forall i :: 0 <= i < |msgs| ==> msgs[i].keycode != code
  }

  lemma {:induction false} SilentKeepsSeat(s: Keyboard, msgs: seq<KeyMsg>, grabs: Bindings, code: nat)
    requires Silent(msgs, code)
    ensures code in InjectedAll(s, msgs, grabs).seat <==> code in s.seat
  {
    if msgs != [] { SilentKeepsSeat(s, msgs[..|msgs| - 1], grabs, code); }
  }

  /** A key event that is forwarded sends the key's message, maybe between two for Shift. */
  lemma OneMessage(event: KeyEvent, realShift: bool, own: KeyMsg, code: nat) returns (before: seq<KeyMsg>, after: seq<KeyMsg>)
    requires Forwarded(event) == Some(own) && code != KEY_LEFTSHIFT
    ensures ConvertKeyboard(event, realShift) == before + [own] + after && Silent(before, code) && Silent(after, code)
  {
    before, after := [], [];
    if ConvertKeyboard(event, realShift) != [own] {
      before, after := [KeyMsg(KEY_LEFTSHIFT, !realShift)], [KeyMsg(KEY_LEFTSHIFT, realShift)];
    }
  }

  lemma ForwardedKey(event: KeyEvent, key: KeyCode, code: nat)
    requires event.physical == Some(key) && Evdev(key) == Some(code) && !IsModifierKey(key) && key != CapsLock
    ensures Forwarded(event) == Some(KeyMsg(code, event.pressed))
  {
  }

  /** A key that is no modifier has no modifier's code. */
  lemma OrdinaryCode(key: KeyCode, code: nat)
    requires Evdev(key) == Some(code) && !IsModifierKey(key)
    ensures !IsModifierCode(code)
  {
  }

  lemma OtherKeySilent(event: KeyEvent, realShift: bool, key: KeyCode, code: nat)
    requires Evdev(key) == Some(code) && !IsModifierKey(key) && event.physical != Some(key)
    ensures Silent(ConvertKeyboard(event, realShift), code)
  {
    OrdinaryCode(key, code);
    if Forwarded(event).Some? {
      var own := Forwarded(event).value;
      if own.keycode == code {
        CodesDistinct(event.physical.value, key);
      }
      var before, after := OneMessage(event, realShift, own, code);
    }
  }

  lemma ModifiersSilent(prev: Mods, now: Mods, code: nat)
    requires !IsModifierCode(code)
    ensures Silent(ModifierMsgs(prev, now), code)
  {
  }

  lemma OwnMessageToggles(s: Keyboard, before: seq<KeyMsg>, own: KeyMsg, after: seq<KeyMsg>, grabs: Bindings)
    requires Silent(before, own.keycode) && Silent(after, own.keycode) && forall mask, pressed :: !grabs(own.keycode, mask, pressed)
    ensures own.keycode in InjectedAll(s, before + [own] + after, grabs).seat <==> own.pressed
  {
    InjectedConcat(s, before + [own], after, grabs);
    InjectedConcat(s, before, [own], grabs);
    InjectedOne(InjectedAll(s, before, grabs), own, grabs);
    SilentKeepsSeat(InjectedAll(s, before + [own], grabs), after, grabs, own.keycode);
  }

  lemma KeyToggles(s: Keyboard, event: KeyEvent, realShift: bool, own: KeyMsg, grabs: Bindings)
    requires Forwarded(event) == Some(own) && own.keycode != KEY_LEFTSHIFT && forall mask, pressed :: !grabs(own.keycode, mask, pressed)
    ensures own.keycode in InjectedAll(s, ConvertKeyboard(event, realShift), grabs).seat <==> own.pressed
  {
    var before, after := OneMessage(event, realShift, own, own.keycode);
    OwnMessageToggles(s, before, own, after, grabs);
  }

  /** One event changes the seat's view of a key that is no modifier only if it is an event of that key. */
  lemma EventKeepsKey(s: Keyboard, mods: Mods, e: ClientEvent, grabs: Bindings, key: KeyCode, code: nat)
    requires Evdev(key) == Some(code) && !IsModifierKey(key) && key != CapsLock
    requires forall mask, pressed :: !grabs(code, mask, pressed)
    ensures code in InjectedAll(s, Sent(mods, e), grabs).seat
       <==> if e.Key? && e.event.physical == Some(key) then e.event.pressed else code in s.seat
  {
    OrdinaryCode(key, code);
    match e {
      case ModifiersChanged(now) =>
        ModifiersSilent(mods, now, code);
        SilentKeepsSeat(s, Sent(mods, e), grabs, code);
      case Key(event) =>
        if event.physical == Some(key) {
          ForwardedKey(event, key, code);
          KeyToggles(s, event, mods.shift, KeyMsg(code, event.pressed), grabs);
        } else {
          OtherKeySilent(event, mods.shift, key, code);
          SilentKeepsSeat(s, Sent(mods, e), grabs, code);
        }
    }
  }

  /** In every connection, after any events: a key that is neither a modifier nor caps lock, and that no
      binding takes, is down on the seat if and only if it is down at the client. */
  lemma {:induction false} KeysMirrored(mods: seq<Mods>, servers: seq<Keyboard>, es: seq<ClientEvent>, grabs: Bindings,
                                        n: nat, key: KeyCode, code: nat)
    requires ModifierRuns.Run(mods, servers, es, grabs) && n <= |es|
    requires Evdev(key) == Some(code) && !IsModifierKey(key) && key != CapsLock
    requires forall mask, pressed :: !grabs(code, mask, pressed)
    ensures code in servers[n].seat <==> HeldDown(es, n, key)
  {
    if n > 0 {
      KeysMirrored(mods, servers, es, grabs, n - 1, key, code);
      assert RunStep(mods, servers, es, grabs, n - 1);
      EventKeepsKey(servers[n - 1], mods[n - 1], es[n - 1], grabs, key, code);
    }
  }

  lemma OnlyCapsLock(event: KeyEvent)
    ensures Forwarded(event).Some? ==> Forwarded(event).value.keycode != 58
  {
  }

  /** Caps lock is never forwarded. */
  lemma CapsLockStaysHome(mods: Mods, e: ClientEvent)
    ensures Silent(Sent(mods, e), 58)
  {
    match e {
      case ModifiersChanged(now) => ModifiersSilent(mods, now, 58);
      case Key(event) =>
        OnlyCapsLock(event);
        if Forwarded(event).Some? {
          var before, after := OneMessage(event, mods.shift, Forwarded(event).value, 58);
        }
    }
  }

  /** A modifier key's own event sends nothing: modifiers go by the modifier state. */
  lemma ModifierKeysSendNothing(mods: Mods, event: KeyEvent)
    requires event.physical.Some? && IsModifierKey(event.physical.value)
    ensures Sent(mods, Key(event)) == []
  {
  }

  /** A release sends nothing but itself. */
  lemma ReleaseIsPlain(mods: Mods, event: KeyEvent)
    requires !event.pressed
    ensures Sent(mods, Key(event)) == match Forwarded(event) case None => [] case Some(key) => [key]
  {
  }

  /** Only the press of a key that stands for one ASCII letter sends more than its own message. */
  lemma OnlyLettersBracketed(mods: Mods, event: KeyEvent)
    requires |Sent(mods, Key(event))| > 1
    ensures event.pressed && event.text.Some? && |event.text.value| == 1
    ensures 'a' <= event.text.value[0] <= 'z' || 'A' <= event.text.value[0] <= 'Z'
  {
  }

  function Place(code: nat): nat {
    if code == KEY_LEFTSHIFT then 0 else if code == KEY_LEFTCTRL then 1 else if code == KEY_LEFTALT then 2 else 3
  }

  /** A change of modifiers sends at most one message for each, in the order Shift, Control, Alt, Super. */
  lemma ModifiersInOrder(prev: Mods, now: Mods, i: nat, j: nat)
    requires i < j < |ModifierMsgs(prev, now)|
    ensures Place(ModifierMsgs(prev, now)[i].keycode) < Place(ModifierMsgs(prev, now)[j].keycode)
  {
  }
}
