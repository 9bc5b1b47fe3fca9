/**
 The built-in floating window manager: managed windows, the focus stack (focused window last)
 and the counter that hands out z indices.
 */
module Floating {
  import opened Numbers
  import opened Wrappers
  import opened Stacking
  import Tiling

  const MOD_ALT: bv32 := 0x08
  const MOD_SUPER: bv32 := 0x40
  const KEY_F4: nat := 62
  const KEY_TAB: nat := 15
  const KEY_UP: nat := 103
  const KEY_LEFT: nat := 105
  const KEY_RIGHT: nat := 106
  const KEY_DOWN: nat := 108

  datatype SnapHalf = Left | Right | Upper | Lower

  datatype WindowState = WindowState(position: (int, int), size: (int, int), zIndex: nat, visible: bool)

  datatype WindowInfo = WindowInfo(
    outputWidth: int, outputHeight: int, minSize: Option<(int, int)>, maxSize: Option<(int, int)>)

  datatype WmState = WmState(
    windows: map<WindowId, WindowState>, focusStack: seq<WindowId>, nextZ: nat, outputWidth: int, outputHeight: int)
  {
    function Focused(): Option<WindowId> {
      if focusStack == [] then None else Some(focusStack[|focusStack| - 1])
    }
  }

  // ----- what each event does

  /** A preferred length, brought within the size hints; the lower hint is looked at first. */
  function Hinted(preferred: int, lower: Option<int>, upper: Option<int>): int {
    if lower.Some? && preferred < lower.value then lower.value
    else if upper.Some? && preferred > upper.value then upper.value
    else preferred
  }

  function Fst(p: Option<(int, int)>): Option<int> { if p.Some? then Some(p.value.0) else None }
  function Snd(p: Option<(int, int)>): Option<int> { if p.Some? then Some(p.value.1) else None }

  function InitialSize(info: WindowInfo): (int, int) {
    (Hinted(Min(800, info.outputWidth), Fst(info.minSize), Fst(info.maxSize)),
     Hinted(Min(600, info.outputHeight), Snd(info.minSize), Snd(info.maxSize)))
  }

  function Centered(output: int, length: int): int { Tiling.TruncDiv(output - length, 2) }

  function NewToplevel(s: WmState, id: WindowId, info: WindowInfo): WmState {
    var size := InitialSize(info);
    var position := (Centered(s.outputWidth, size.0), Centered(s.outputHeight, size.1));
    s.(windows := s.windows[id := WindowState(position, size, s.nextZ, true)], nextZ := s.nextZ + 1,
       focusStack := s.focusStack + [id])
  }

  function Closed(s: WmState, id: WindowId): WmState {
    s.(windows := s.windows - {id}, focusStack := Without(s.focusStack, {id}))
  }

  /** The window, if managed, gets the next z index. */
  function OnTop(s: WmState, id: WindowId): WmState {
    if id !in s.windows then s
    else s.(windows := s.windows[id := s.windows[id].(zIndex := s.nextZ)], nextZ := s.nextZ + 1)
  }

  function RaisedToTop(s: WmState, id: WindowId): WmState {
    OnTop(s.(focusStack := Without(s.focusStack, {id}) + [id]), id)
  }

  /** The last window goes first. */
  function Rotated(t: seq<WindowId>): seq<WindowId>
    requires t != []
  {
    [t[|t| - 1]] + t[..|t| - 1]
  }

  function FocusNext(s: WmState): WmState {
    if |s.focusStack| < 2 then s
    else
      var rotated := Rotated(s.focusStack);
      OnTop(s.(focusStack := rotated), rotated[|rotated| - 1])
  }

  function PointerFocused(s: WmState, id: WindowId): WmState {
    if id in s.windows then RaisedToTop(s, id) else s
  }

  function Fullscreened(s: WmState, id: WindowId): WmState {
    if id !in s.windows then s
    else RaisedToTop(s.(windows := s.windows[id := s.windows[id].(position := (0, 0), size := (s.outputWidth, s.outputHeight))]), id)
  }

  function SnapGeometry(width: int, height: int, half: SnapHalf): ((int, int), (int, int)) {
    var halfW, halfH := Tiling.TruncDiv(width, 2), Tiling.TruncDiv(height, 2);
    match half
    case Left => ((0, 0), (halfW, height))
    case Right => ((halfW, 0), (width - halfW, height))
    case Upper => ((0, 0), (width, halfH))
    case Lower => ((0, halfH), (width, height - halfH))
  }

  function Snapped(s: WmState, half: SnapHalf): WmState {
    if s.Focused().None? || s.Focused().value !in s.windows then s
    else
      var id := s.Focused().value;
      var (position, size) := SnapGeometry(s.outputWidth, s.outputHeight, half);
      s.(windows := s.windows[id := s.windows[id].(position := position, size := size)])
  }

  function HalfOf(key: nat): Option<SnapHalf> {
    if key == KEY_LEFT then Some(Left)
    else if key == KEY_RIGHT then Some(Right)
    else if key == KEY_UP then Some(Upper)
    else if key == KEY_DOWN then Some(Lower)
    else None
  }

  function KeyPressed(s: WmState, key: nat, modifiers: bv32): WmState {
    if modifiers & MOD_ALT != 0 && key == KEY_F4 then s
    else if modifiers & MOD_ALT != 0 && key == KEY_TAB then FocusNext(s)
    else if modifiers & MOD_SUPER != 0 && HalfOf(key).Some? then Snapped(s, HalfOf(key).value)
    else s
  }

  /** Whether a key press is taken for the window manager and not passed on. */
  predicate Takes(s: WmState, key: nat, modifiers: bv32) {
    || (modifiers & MOD_ALT != 0 && (key == KEY_F4 || key == KEY_TAB))
    || (modifiers & MOD_SUPER != 0 && HalfOf(key).Some? && s.Focused().Some? && s.Focused().value in s.windows)
  }

  // ----- the window manager

  class BuiltinFloatingWm {
    var windows: map<WindowId, WindowState>
    var focusStack: seq<WindowId>
    var nextZ: nat
    const outputWidth: int
    const outputHeight: int

    function State(): WmState
      reads this
    {
      WmState(windows, focusStack, nextZ, outputWidth, outputHeight)
    }

    constructor (outputWidth: int, outputHeight: int)
      ensures State() == WmState(map[], [], 1, outputWidth, outputHeight)
    {
      windows, focusStack, nextZ := map[], [], 1;
      this.outputWidth, this.outputHeight := outputWidth, outputHeight;
    }

    method GiveTopZ(id: WindowId)
      modifies this
      ensures State() == OnTop(old(State()), id)
    {
      if id in windows {
        windows := windows[id := windows[id].(zIndex := nextZ)];
        nextZ := nextZ + 1;
      }
    }

    method CycleFocus() returns (focused: Option<WindowId>)
      modifies this
      ensures State() == FocusNext(old(State())) && focused == State().Focused()
    {
      if |focusStack| < 2 {
        return State().Focused();
      }
      var top := focusStack[|focusStack| - 1];
      focusStack := focusStack[..|focusStack| - 1];
      focusStack := [top] + focusStack;
      var newFocus := focusStack[|focusStack| - 1];
      GiveTopZ(newFocus);
      focused := Some(newFocus);
    }

    method RaiseToTop(id: WindowId)
      modifies this
      ensures State() == RaisedToTop(old(State()), id)
    {
      focusStack := Without(focusStack, {id});
      focusStack := focusStack + [id];
      GiveTopZ(id);
    }

    method OnNewToplevel(id: WindowId, info: WindowInfo) returns (size: (int, int), position: (int, int))
      modifies this
      ensures State() == NewToplevel(old(State()), id, info)
      ensures id in windows && windows[id].size == size && windows[id].position == position
    {
      var width := if 800 < info.outputWidth then 800 else info.outputWidth;
      var height := if 600 < info.outputHeight then 600 else info.outputHeight;
      width := Hinted(width, Fst(info.minSize), Fst(info.maxSize));
      height := Hinted(height, Snd(info.minSize), Snd(info.maxSize));
      size, position := (width, height), (Centered(outputWidth, width), Centered(outputHeight, height));
      windows := windows[id := WindowState(position, size, nextZ, true)];
      nextZ := nextZ + 1;
      focusStack := focusStack + [id];
    }

    method OnCloseToplevel(id: WindowId)
      modifies this
      ensures State() == Closed(old(State()), id)
    {
      windows := windows - {id};
      focusStack := Without(focusStack, {id});
    }

    method OnFullscreenRequest(id: WindowId) returns (done: bool)
      modifies this
      ensures done == (id in old(windows)) && State() == Fullscreened(old(State()), id)
    {
      done := id in windows;
      if done {
        windows := windows[id := windows[id].(position := (0, 0), size := (outputWidth, outputHeight))];
        RaiseToTop(id);
      }
    }

    method OnPointerFocus(id: WindowId) returns (focused: Option<WindowId>)
      modifies this
      ensures focused == (if id in old(windows) then Some(id) else None)
      ensures State() == PointerFocused(old(State()), id)
    {
      if id in windows {
        RaiseToTop(id);
        return Some(id);
      }
      focused := None;
    }

    method SnapFocused(half: SnapHalf) returns (snapped: bool)
      modifies this
      ensures State() == Snapped(old(State()), half)
      ensures snapped == (old(State()).Focused().Some? && old(State()).Focused().value in old(windows))
    {
      var id := State().Focused();
      snapped := id.Some? && id.value in windows;
      if snapped {
        var (position, size) := SnapGeometry(outputWidth, outputHeight, half);
        windows := windows[id.value := windows[id.value].(position := position, size := size)];
      }
    }

    method OnKeyBinding(key: nat, modifiers: bv32) returns (handled: bool)
      modifies this
      ensures State() == KeyPressed(old(State()), key, modifiers)
      ensures handled == Takes(old(State()), key, modifiers)
    {
      if modifiers & MOD_ALT != 0 {
        if key == KEY_F4 {
          return true;
        }
        if key == KEY_TAB {
          var _ := CycleFocus();
          return true;
        }
      }
      if modifiers & MOD_SUPER != 0 && HalfOf(key).Some? {
        handled := SnapFocused(HalfOf(key).value);
        return;
      }
      handled := false;
    }
  }

  // ----- the invariant

  /** The focus stack lists the managed windows, each once; z indices are distinct and were issued. */
  ghost predicate WmInv(s: WmState) {
    && Distinct(s.focusStack)
    && (forall id :: id in s.focusStack <==> id in s.windows)
    && (forall id :: id in s.windows ==> s.windows[id].zIndex < s.nextZ)
    && (forall a, b :: a in s.windows && b in s.windows && s.windows[a].zIndex == s.windows[b].zIndex ==> a == b)
  }

  datatype Event =
    | Opened(id: WindowId, info: WindowInfo)
    | Close(id: WindowId)
    | Key(key: nat, modifiers: bv32)
    | Pointer(id: WindowId)
    | Fullscreen(id: WindowId)

  function After(s: WmState, e: Event): WmState {
    match e
    case Opened(id, info) => NewToplevel(s, id, info)
    case Close(id) => Closed(s, id)
    case Key(key, modifiers) => KeyPressed(s, key, modifiers)
    case Pointer(id) => PointerFocused(s, id)
    case Fullscreen(id) => Fullscreened(s, id)
  }

  lemma {:induction false} WithoutDistinct(s: seq<WindowId>, id: WindowId)
    requires Distinct(s)
    ensures Distinct(Without(s, {id}))
  {
    if s != [] {
      var n := |s| - 1;
      WithoutDistinct(s[..n], id);
      WithoutKeeps(s[..n], {id}, s[n]);
    }
  }

  lemma OnTopKeeps(s: WmState, id: WindowId)
    requires WmInv(s)
    ensures WmInv(OnTop(s, id))
  {
  }

  lemma RaisedKeeps(s: WmState, id: WindowId)
    requires WmInv(s) && id in s.windows
    ensures WmInv(RaisedToTop(s, id))
  {
    WithoutDistinct(s.focusStack, id);
    forall w ensures w in Without(s.focusStack, {id}) + [id] <==> w in s.windows {
      WithoutKeeps(s.focusStack, {id}, w);
    }
    WithoutKeeps(s.focusStack, {id}, id);
    OnTopKeeps(s.(focusStack := Without(s.focusStack, {id}) + [id]), id);
  }

  lemma FocusNextKeeps(s: WmState)
    requires WmInv(s)
    ensures WmInv(FocusNext(s))
  {
    if |s.focusStack| >= 2 {
      var n := |s.focusStack| - 1;
      var rotated := Rotated(s.focusStack);
      forall w ensures w in rotated <==> w in s.windows {
        assert s.focusStack == s.focusStack[..n] + [s.focusStack[n]];
        assert w in rotated <==> w in s.focusStack;
      }
      OnTopKeeps(s.(focusStack := rotated), rotated[n]);
    }
  }

  lemma OpenedKeepsIff(s: WmState, id: WindowId, info: WindowInfo)
    requires WmInv(s)
    ensures WmInv(NewToplevel(s, id, info)) <==> id !in s.windows
  {
    if id in s.windows {
      var s' := NewToplevel(s, id, info);
      var i :| 0 <= i < |s.focusStack| && s.focusStack[i] == id;
      assert s'.focusStack[i] == s'.focusStack[|s.focusStack|];
    }
  }

  lemma ClosedKeeps(s: WmState, id: WindowId)
    requires WmInv(s)
    ensures WmInv(Closed(s, id))
  {
    WithoutDistinct(s.focusStack, id);
    forall w ensures w in Without(s.focusStack, {id}) <==> w in s.windows && w != id {
      WithoutKeeps(s.focusStack, {id}, w);
    }
  }

  lemma SnappedKeeps(s: WmState, half: SnapHalf)
    requires WmInv(s)
    ensures WmInv(Snapped(s, half))
  {
  }

  lemma KeyKeeps(s: WmState, key: nat, modifiers: bv32)
    requires WmInv(s)
    ensures WmInv(KeyPressed(s, key, modifiers))
  {
    FocusNextKeeps(s);
    if HalfOf(key).Some? { SnappedKeeps(s, HalfOf(key).value); }
  }

  lemma FullscreenedKeeps(s: WmState, id: WindowId)
    requires WmInv(s)
    ensures WmInv(Fullscreened(s, id))
  {
    if id in s.windows {
      RaisedKeeps(s.(windows := s.windows[id := s.windows[id].(position := (0, 0), size := (s.outputWidth, s.outputHeight))]), id);
    }
  }

  /** Every event keeps the invariant, except exactly that a window must not be announced twice. */
  lemma EventKeepsIff(s: WmState, e: Event)
    requires WmInv(s)
    ensures WmInv(After(s, e)) <==> !(e.Opened? && e.id in s.windows)
  {
    match e {
      case Opened(id, info) => OpenedKeepsIff(s, id, info);
      case Close(id) => ClosedKeeps(s, id);
      case Key(key, modifiers) => KeyKeeps(s, key, modifiers);
      case Pointer(id) => if id in s.windows { RaisedKeeps(s, id); }
      case Fullscreen(id) => FullscreenedKeeps(s, id);
    }
  }

  /** A window announced twice is listed twice. */
  lemma AnnouncedTwice(info: WindowInfo)
    ensures var once := NewToplevel(WmState(map[], [], 1, 1280, 720), 1, info);
            WmInv(once) && !WmInv(NewToplevel(once, 1, info))
  {
    var start := WmState(map[], [], 1, 1280, 720);
    OpenedKeepsIff(start, 1, info);
    OpenedKeepsIff(NewToplevel(start, 1, info), 1, info);
  }

  ghost predicate Run(ss: seq<WmState>, es: seq<Event>) {
    && |ss| == |es| + 1 && ss[0].windows == map[] && ss[0].focusStack == []
    && forall i :: 0 <= i < |es| ==>
         ss[i + 1] == After(ss[i], es[i]) && !(es[i].Opened? && es[i].id in ss[i].windows)
  }

  /** In every run: the focus stack is a duplicate-free list of exactly the managed windows, and
      their z indices are distinct. */
  lemma {:induction false} RunKeepsInv(ss: seq<WmState>, es: seq<Event>, n: nat)
    requires Run(ss, es) && n < |ss|
    ensures WmInv(ss[n])
  {
    if n > 0 {
      RunKeepsInv(ss, es, n - 1);
      EventKeepsIff(ss[n - 1], es[n - 1]);
    }
  }

  // ----- cycling the focus

  function Cycled(s: WmState, k: nat): WmState {
    if k == 0 then s else FocusNext(Cycled(s, k - 1))
  }

  lemma RotatedOnce(t: seq<WindowId>, k: nat)
    requires 0 < k <= |t|
    ensures Rotated(t[|t| - k + 1..] + t[..|t| - k + 1]) == t[|t| - k..] + t[..|t| - k]
  {
  }

  lemma FocusNextRotates(s: WmState)
    requires 2 <= |s.focusStack|
    ensures FocusNext(s).focusStack == Rotated(s.focusStack)
  {
  }

  /** After `k` steps of the cycle the last `k` windows have gone below, in order. */
  lemma {:induction false} CycledStack(s: WmState, k: nat)
    requires 2 <= |s.focusStack| && k <= |s.focusStack|
    ensures Cycled(s, k).focusStack == s.focusStack[|s.focusStack| - k..] + s.focusStack[..|s.focusStack| - k]
  {
    if k > 0 {
      CycledStack(s, k - 1);
      RotatedOnce(s.focusStack, k);
      FocusNextRotates(Cycled(s, k - 1));
    }
  }

  /** A whole cycle visits every window once, from the top of the stack down, and ends with the
      stack it began with. */
  lemma FullCycle(s: WmState, k: nat)
    requires 2 <= |s.focusStack| && 0 < k <= |s.focusStack|
    ensures Cycled(s, |s.focusStack|).focusStack == s.focusStack
    ensures Cycled(s, k).Focused() == Some(s.focusStack[if k == |s.focusStack| then k - 1 else |s.focusStack| - 1 - k])
  {
    CycledStack(s, |s.focusStack|);
    CycledStack(s, k);
  }

  // ----- is the focused window on top?

  ghost predicate FocusedOnTop(s: WmState) {
    s.focusStack != [] ==>
      forall id :: id in s.windows && s.focusStack[|s.focusStack| - 1] in s.windows ==>
        s.windows[id].zIndex <= s.windows[s.focusStack[|s.focusStack| - 1]].zIndex
  }

  /** The windows are listed in z order. */
  ghost predicate ZSorted(windows: map<WindowId, WindowState>, t: seq<WindowId>) {
    && (forall i :: 0 <= i < |t| ==> t[i] in windows)
    && (forall i, j :: 0 <= i < j < |t| ==> windows[t[i]].zIndex < windows[t[j]].zIndex)
  }

  ghost predicate InZOrder(s: WmState) {
    ZSorted(s.windows, s.focusStack)
  }

  lemma InZOrderFocusesTop(s: WmState)
    requires WmInv(s) && InZOrder(s)
    ensures FocusedOnTop(s)
  {
  }

  lemma {:induction false} WithoutSorted(windows: map<WindowId, WindowState>, t: seq<WindowId>, id: WindowId)
    requires ZSorted(windows, t)
    ensures ZSorted(windows, Without(t, {id})) && forall w :: w in Without(t, {id}) ==> w in t
  {
    if t != [] {
      var n := |t| - 1;
      WithoutSorted(windows, t[..n], id);
      forall w | w in t[..n] ensures windows[w].zIndex < windows[t[n]].zIndex {
      }
    }
  }

  lemma AppendedSorted(windows: map<WindowId, WindowState>, t: seq<WindowId>, id: WindowId, state: WindowState)
    requires ZSorted(windows, t) && id !in t && forall w :: w in t ==> windows[w].zIndex < state.zIndex
    ensures ZSorted(windows[id := state], t + [id])
  {
  }

  lemma RaisedSorted(s: WmState, id: WindowId)
    requires WmInv(s) && InZOrder(s) && id in s.windows
    ensures InZOrder(RaisedToTop(s, id))
  {
    WithoutSorted(s.windows, s.focusStack, id);
    WithoutKeeps(s.focusStack, {id}, id);
    AppendedSorted(s.windows, Without(s.focusStack, {id}), id, s.windows[id].(zIndex := s.nextZ));
  }

  lemma ClosedSorted(s: WmState, id: WindowId)
    requires InZOrder(s)
    ensures InZOrder(Closed(s, id))
  {
    WithoutSorted(s.windows, s.focusStack, id);
    WithoutKeeps(s.focusStack, {id}, id);
  }

  /** Opening, closing, clicking and going fullscreen keep the focus stack in z order. */
  lemma ZOrderKept(s: WmState, e: Event)
    requires WmInv(s) && InZOrder(s) && !e.Key? && !(e.Opened? && e.id in s.windows)
    ensures InZOrder(After(s, e))
  {
    match e {
      case Opened(id, info) => AppendedSorted(s.windows, s.focusStack, id, After(s, e).windows[id]);
      case Close(id) => ClosedSorted(s, id);
      case Pointer(id) => if id in s.windows { RaisedSorted(s, id); }
      case Fullscreen(id) =>
        if id in s.windows {
          RaisedSorted(s.(windows := s.windows[id := s.windows[id].(position := (0, 0), size := (s.outputWidth, s.outputHeight))]), id);
        }
    }
  }

  /** Every event but cycling keeps it so. */
  lemma UncycledKeepsZOrder(s: WmState, e: Event)
    requires WmInv(s) && InZOrder(s) && !Cycles(e) && !(e.Opened? && e.id in s.windows)
    ensures InZOrder(After(s, e))
  {
    if !e.Key? { ZOrderKept(s, e); }
  }

  /** Alt+Tab. */
  predicate Cycles(e: Event) {
    e.Key? && e.modifiers & MOD_ALT != 0 && e.key == KEY_TAB
  }

  /** In every run without Alt+Tab the focused window is the one on top, also after windows close. */
  lemma {:induction false} UncycledRunFocusesTop(ss: seq<WmState>, es: seq<Event>, n: nat)
    requires Run(ss, es) && n < |ss| && forall i :: 0 <= i < n ==> !Cycles(es[i])
    ensures InZOrder(ss[n]) && FocusedOnTop(ss[n])
  {
    RunKeepsInv(ss, es, n);
    if n > 0 {
      UncycledRunFocusesTop(ss, es, n - 1);
      RunKeepsInv(ss, es, n - 1);
      UncycledKeepsZOrder(ss[n - 1], es[n - 1]);
    }
    InZOrderFocusesTop(ss[n]);
  }

  /** Cycling the focus keeps the z order exactly while there are at most two windows. */
  lemma CyclingKeepsZOrderIff(s: WmState)
    requires WmInv(s) && InZOrder(s)
    ensures InZOrder(FocusNext(s)) <==> |s.focusStack| <= 2
  {
    var n := |s.focusStack|;
    if n > 2 {
      var s' := FocusNext(s);
      assert s'.focusStack[0] == s.focusStack[n - 1] && s'.focusStack[1] == s.focusStack[0];
      assert s'.windows[s.focusStack[0]] == s.windows[s.focusStack[0]];
    }
  }

  /** The window that is focused once the focused one is closed has the highest z index of those left. */
  ghost predicate NextOnTop(s: WmState) {
    var n := |s.focusStack| - 1;
    n > 0 ==> forall k :: 0 <= k < n ==>
      s.focusStack[k] in s.windows && s.focusStack[n - 1] in s.windows
      && s.windows[s.focusStack[k]].zIndex <= s.windows[s.focusStack[n - 1]].zIndex
  }

  lemma WithoutLast(t: seq<WindowId>)
    requires t != [] && Distinct(t)
    ensures Without(t, {t[|t| - 1]}) == t[..|t| - 1]
  {
    WithoutAbsent(t[..|t| - 1], {t[|t| - 1]});
  }

  lemma WithoutOther(t: seq<WindowId>, id: WindowId)
    requires t != [] && t[|t| - 1] != id
    ensures Without(t, {id}) != [] && Without(t, {id})[|Without(t, {id})| - 1] == t[|t| - 1]
  {
  }

  /** Closing a window while the focused one is on top leaves the focused one on top, exactly unless
      it is the focused window that is closed and the next one is below another. */
  lemma ClosingKeepsTopIff(s: WmState, id: WindowId)
    requires WmInv(s) && FocusedOnTop(s)
    ensures FocusedOnTop(Closed(s, id)) <==> (s.Focused() == Some(id) ==> NextOnTop(s))
  {
    if s.focusStack != [] {
      var n := |s.focusStack| - 1;
      if s.focusStack[n] == id {
        WithoutLast(s.focusStack);
        ClosedFocused(s);
      } else {
        WithoutOther(s.focusStack, id);
      }
    }
  }

  lemma ClosedFocused(s: WmState)
    requires WmInv(s) && s.focusStack != []
    requires Without(s.focusStack, {s.focusStack[|s.focusStack| - 1]}) == s.focusStack[..|s.focusStack| - 1]
    ensures FocusedOnTop(Closed(s, s.focusStack[|s.focusStack| - 1])) <==> NextOnTop(s)
  {
    var n := |s.focusStack| - 1;
    var s' := Closed(s, s.focusStack[n]);
    forall k | 0 <= k < n ensures s.focusStack[k] in s'.windows && s'.windows[s.focusStack[k]] == s.windows[s.focusStack[k]] {
      assert s.focusStack[k] in s.focusStack;
    }
    forall id | id in s'.windows ensures exists k :: 0 <= k < n && s.focusStack[k] == id {
      StackIndex(s, id);
    }
  }

  lemma StackIndex(s: WmState, id: WindowId)
    requires WmInv(s) && id in s.windows && s.focusStack != [] && id != s.focusStack[|s.focusStack| - 1]
    ensures exists k :: 0 <= k < |s.focusStack| - 1 && s.focusStack[k] == id
  {
    var k :| 0 <= k < |s.focusStack| && s.focusStack[k] == id;
  }

  /** After cycling through three windows and closing the focused one, the focused window is
      below another. */
  lemma FocusedNotOnTopAfterClose(info: WindowInfo)
    ensures var s0 := WmState(map[], [], 1, 1280, 720);
            var s3 := NewToplevel(NewToplevel(NewToplevel(s0, 1, info), 2, info), 3, info);
            InZOrder(s3) && !InZOrder(FocusNext(s3)) && !FocusedOnTop(Closed(FocusNext(s3), 2))
  {
    var s0 := WmState(map[], [], 1, 1280, 720);
    var s3 := NewToplevel(NewToplevel(NewToplevel(s0, 1, info), 2, info), 3, info);
    assert s3.focusStack == [1, 2, 3];
    var s4 := FocusNext(s3);
    assert s4.focusStack == [3, 1, 2];
    assert s3.windows[1].zIndex == 1 && s3.windows[2].zIndex == 2 && s3.windows[3].zIndex == 3;
    assert s4.windows[s4.focusStack[0]].zIndex == 3 && s4.windows[s4.focusStack[1]].zIndex == 1;
    WithoutLast(s4.focusStack);
    var s5 := Closed(s4, 2);
    assert s5.focusStack == [3, 1];
    assert s5.windows[3].zIndex == 3 && s5.windows[1].zIndex == 1;
  }

  // ----- where a new window goes

  /** The margins before and behind differ by at most one pixel, also when the length is larger
      than the output. */
  predicate Middle(position: int, length: int, output: int) {
    -1 <= position - (output - length - position) <= 1
  }

  /** Size hints that do not contradict each other are both respected; of two that do, the upper
      one gives way exactly when the preferred length is below the lower one. */
  predicate Respects(length: int, preferred: int, lower: Option<int>, upper: Option<int>) {
    && (lower.Some? && (upper.None? || lower.value <= upper.value) ==> length >= lower.value)
    && (upper.Some? ==> (length <= upper.value <==> !(lower.Some? && preferred < lower.value && lower.value > upper.value)))
    && (lower.None? && upper.None? ==> length == preferred)
  }

  /** A new window is focused, visible and above every other, within its size hints and in the
      middle of the output both ways. */
  lemma NewWindowPlaced(s: WmState, id: WindowId, info: WindowInfo)
    requires WmInv(s)
    ensures var s' := NewToplevel(s, id, info);
            && s'.Focused() == Some(id) && id in s'.windows && s'.windows[id].visible
            && (forall k :: k in s'.windows && k != id ==> s'.windows[k].zIndex < s'.windows[id].zIndex)
            && var w := s'.windows[id];
               && Middle(w.position.0, w.size.0, s.outputWidth) && Middle(w.position.1, w.size.1, s.outputHeight)
               && Respects(w.size.0, Min(800, info.outputWidth), Fst(info.minSize), Fst(info.maxSize))
               && Respects(w.size.1, Min(600, info.outputHeight), Snd(info.minSize), Snd(info.maxSize))
  {
    var size := InitialSize(info);
    CenteredEvenly(s.outputWidth, size.0);
    CenteredEvenly(s.outputHeight, size.1);
  }

  lemma CenteredEvenly(output: int, length: int)
    ensures Middle(Centered(output, length), length, output)
  {
  }

  // ----- keys, clicks and requests

  predicate InWindow(w: WindowState, px: int, py: int) {
    w.position.0 <= px < w.position.0 + w.size.0 && w.position.1 <= py < w.position.1 + w.size.1
  }

  predicate OnOutput(s: WmState, px: int, py: int) {
    0 <= px < s.outputWidth && 0 <= py < s.outputHeight
  }

  /** Nothing about the other windows is different. */
  ghost predicate OthersKept(s: WmState, s': WmState, id: WindowId) {
    && s'.windows.Keys == s.windows.Keys
    && (forall k :: k in s.windows && k != id ==> s'.windows[k] == s.windows[k])
    && Without(s'.focusStack, {id}) == Without(s.focusStack, {id})
  }

  /** The focused window covers the half of the output that the arrow points to: exactly the points
      whose pixels lie in it as a whole, or the rest. */
  predicate CoversHalf(s: WmState, w: WindowState, key: nat, px: int, py: int) {
    InWindow(w, px, py) <==>
      if key == 105 then 2 * (px + 1) <= s.outputWidth
      else if key == 106 then 2 * (px + 1) > s.outputWidth
      else if key == 103 then 2 * (py + 1) <= s.outputHeight
      else 2 * (py + 1) > s.outputHeight
  }

  /** Super with an arrow key snaps the focused window to that half of the output, leaves everything
      else alone, and is not passed on. */
  lemma ArrowSnaps(s: WmState, key: nat, modifiers: bv32, px: int, py: int)
    requires WmInv(s) && s.focusStack != [] && modifiers & 0x40 != 0 && OnOutput(s, px, py)
    requires key == 105 || key == 106 || key == 103 || key == 108
    ensures Takes(s, key, modifiers)
    ensures var id := s.focusStack[|s.focusStack| - 1]; var s' := KeyPressed(s, key, modifiers);
            && id in s.windows && OthersKept(s, s', id) && s'.focusStack == s.focusStack && s'.nextZ == s.nextZ
            && CoversHalf(s, s'.windows[id], key, px, py)
            && s'.windows[id].zIndex == s.windows[id].zIndex && s'.windows[id].visible == s.windows[id].visible
  {
    var id := s.focusStack[|s.focusStack| - 1];
    assert id in s.focusStack;
    HalvesTile(s.outputWidth);
    HalvesTile(s.outputHeight);
  }

  lemma HalvesTile(length: int)
    requires length > 0
    ensures length - 1 <= 2 * Tiling.TruncDiv(length, 2) <= length
  {
  }

  /** A key that is passed on has changed nothing; Alt with F4 is taken although it changes nothing. */
  lemma PassedOnChangesNothing(s: WmState, key: nat, modifiers: bv32)
    ensures !Takes(s, key, modifiers) ==> KeyPressed(s, key, modifiers) == s
    ensures modifiers & 0x08 != 0 && key == 62 ==> Takes(s, key, modifiers) && KeyPressed(s, key, modifiers) == s
    ensures modifiers & 0x08 != 0 && key == 15 ==> Takes(s, key, modifiers)
  {
  }

  /** The window is focused and above all others; else nothing about the stack changed. */
  ghost predicate BroughtUp(s: WmState, s': WmState, id: WindowId) {
    && OthersKept(s, s', id) && s'.Focused() == Some(id) && id in s'.windows
    && s'.windows[id].visible == s.windows[id].visible
    && forall k :: k in s'.windows && k != id ==> s'.windows[k].zIndex < s'.windows[id].zIndex
  }

  lemma RaisedBringsUp(s: WmState, id: WindowId)
    requires WmInv(s) && id in s.windows
    ensures BroughtUp(s, RaisedToTop(s, id), id)
    ensures RaisedToTop(s, id).windows[id] == s.windows[id].(zIndex := s.nextZ)
  {
    WithoutConcat(Without(s.focusStack, {id}), [id], {id});
    WithoutOne(id, {id});
    WithoutTwice(s.focusStack, {id}, {id});
    assert {id} + {id} == {id};
  }

  /** Pointing at a managed window brings it up where it is; at any other nothing happens. */
  lemma PointingBringsUp(s: WmState, id: WindowId)
    requires WmInv(s)
    ensures var s' := PointerFocused(s, id);
            if id in s.windows
            then BroughtUp(s, s', id) && s'.windows[id].position == s.windows[id].position && s'.windows[id].size == s.windows[id].size
            else s' == s
  {
    if id in s.windows { RaisedBringsUp(s, id); }
  }

  /** A managed window that asks for it covers exactly the output, on top. */
  lemma FullscreenCovers(s: WmState, id: WindowId, px: int, py: int)
    requires WmInv(s)
    ensures var s' := Fullscreened(s, id);
            if id in s.windows
            then BroughtUp(s, s', id) && (InWindow(s'.windows[id], px, py) <==> OnOutput(s, px, py))
            else s' == s
  {
    if id in s.windows {
      var s1 := s.(windows := s.windows[id := s.windows[id].(position := (0, 0), size := (s.outputWidth, s.outputHeight))]);
      RaisedBringsUp(s1, id);
    }
  }

  /** Closing takes exactly the window away. */
  lemma ClosingTakesOne(s: WmState, id: WindowId)
    ensures var s' := Closed(s, id);
            && s'.windows.Keys == s.windows.Keys - {id} && (forall k :: k in s'.windows ==> s'.windows[k] == s.windows[k])
            && s'.focusStack == Without(s.focusStack, {id}) && s'.nextZ == s.nextZ
  {
  }
}
