/**
 The compositor's own stack of windows, some of them known to the window manager under an id,
 and the z-order pass that brings it into the order the window manager asked for.
 */
module SpaceOrder {
  import opened Wrappers
  import opened Stacking

  type Names = seq<(WindowId, Window)>

  function IdFor(names: Names, w: Window): Option<WindowId> {
    if names == [] then None else if names[0].1 == w then Some(names[0].0) else IdFor(names[1..], w)
  }

  function WindowFor(names: Names, id: WindowId): Option<Window> {
    if names == [] then None else if names[0].0 == id then Some(names[0].1) else WindowFor(names[1..], id)
  }

  ghost predicate OneToOne(names: Names) {
    forall i, j :: 0 <= i < j < |names| ==> names[i].0 != names[j].0 && names[i].1 != names[j].1
  }

  lemma {:induction false} IdForIs(names: Names, w: Window)
    ensures match IdFor(names, w) case Some(id) => (id, w) in names case None => forall id :: (id, w) !in names
  {
    if names != [] && names[0].1 != w { IdForIs(names[1..], w); }
  }

  lemma {:induction false} WindowForIs(names: Names, id: WindowId)
    ensures match WindowFor(names, id) case Some(w) => (id, w) in names case None => forall w :: (id, w) !in names
  {
    if names != [] && names[0].0 != id { WindowForIs(names[1..], id); }
  }

  /** The two lookups are inverse. */
  lemma Lookups(names: Names, id: WindowId, w: Window)
    requires OneToOne(names)
    ensures IdFor(names, w) == Some(id) <==> WindowFor(names, id) == Some(w)
  {
    IdForIs(names, w);
    WindowForIs(names, id);
  }

  /** The ids of the named windows of a stack. */
  function IdsOf(names: Names, stack: seq<Window>): seq<WindowId> {
    if stack == [] then []
    else
      var id := IdFor(names, stack[|stack| - 1]);
      IdsOf(names, stack[..|stack| - 1]) + if id.Some? then [id.value] else []
  }

  function WindowsOf(names: Names, ids: seq<WindowId>): seq<Window> {
    if ids == [] then []
    else
      var earlier := WindowsOf(names, ids[..|ids| - 1]);
      match WindowFor(names, ids[|ids| - 1]) case Some(w) => earlier + [w] case None => earlier
  }

  function Reordered(names: Names, stack: seq<Window>, commands: seq<RenderCommand>): seq<Window> {
    var current := IdsOf(names, stack);
    var desired := Restacked(current, commands);
    if desired == current then stack else RaisedAll(stack, WindowsOf(names, desired))
  }

  class Space {
    var windowIds: Names
    var nextWindowId: WindowId
    var elements: seq<Window>

    ghost predicate Valid()
      reads this
    {
      && OneToOne(windowIds) && Distinct(elements)
      && forall i :: 0 <= i < |windowIds| ==> windowIds[i].0 < nextWindowId
    }

    constructor ()
      ensures Valid() && windowIds == [] && elements == []
    {
      windowIds, nextWindowId, elements := [], 1, [];
    }

    /** The id is new; the list stays one-to-one exactly if the window was not registered yet. */
    method RegisterWindow(w: Window) returns (id: WindowId)
      requires Valid()
      modifies this
      ensures elements == old(elements) && windowIds == old(windowIds) + [(id, w)]
      ensures forall v :: (id, v) !in old(windowIds)
      ensures Valid() <==> IdFor(old(windowIds), w).None?
    {
      IdForIs(windowIds, w);
      ghost var before := windowIds;
      id := nextWindowId;
      nextWindowId := nextWindowId + 1;
      windowIds := windowIds + [(id, w)];
      if IdFor(before, w).Some? {
        var i :| 0 <= i < |before| && before[i] == (IdFor(before, w).value, w);
        assert windowIds[i].1 == windowIds[|before|].1;
      }
    }

    method RaiseElement(w: Window)
      modifies this`elements
      ensures elements == Raised(old(elements), w)
    {
      if w in elements {
        elements := Without(elements, {w}) + [w];
      }
    }

    method CurrentIds() returns (ids: seq<WindowId>)
      ensures ids == IdsOf(windowIds, elements)
    {
      ids := [];
      var i := 0;
      while i < |elements|
        invariant 0 <= i <= |elements|
        invariant ids == IdsOf(windowIds, elements[..i])
      {
        assert elements[..i + 1][..i] == elements[..i];
        var id := IdFor(windowIds, elements[i]);
        if id.Some? {
          ids := ids + [id.value];
        }
        i := i + 1;
      }
      assert elements[..i] == elements;
    }

    /** The z-order pass over one batch of commands. */
    method ApplyZOrder(commands: seq<RenderCommand>)
      requires Valid()
      modifies this`elements
      ensures elements == Reordered(windowIds, old(elements), commands)
    {
      if forall c :: c in commands ==> c.zOrder.Preserve? {
        AllPreserved(IdsOf(windowIds, elements), commands);
        return;
      }
      var current := CurrentIds();
      var desired := Restack(current, commands);
      if desired != current {
        var i := 0;
        while i < |desired|
          invariant 0 <= i <= |desired|
          invariant elements == RaisedAll(old(elements), WindowsOf(windowIds, desired[..i]))
        {
          assert desired[..i + 1][..i] == desired[..i];
          var w := WindowFor(windowIds, desired[i]);
          if w.Some? {
            RaisedSnoc(old(elements), WindowsOf(windowIds, desired[..i]), w.value);
            RaiseElement(w.value);
          }
          i := i + 1;
        }
        assert desired[..i] == desired;
      }
    }
  }

  lemma RaisedSnoc(stack: seq<Window>, ws: seq<Window>, w: Window)
    ensures RaisedAll(stack, ws + [w]) == Raised(RaisedAll(stack, ws), w)
  {
    assert (ws + [w])[..|ws|] == ws;
  }

  lemma {:induction false} AllPreserved(stack: seq<WindowId>, commands: seq<RenderCommand>)
    requires forall c :: c in commands ==> c.zOrder.Preserve?
    ensures Restacked(stack, commands) == stack
  {
    if commands != [] {
      assert commands[|commands| - 1] in commands;
      AllPreserved(stack, commands[..|commands| - 1]);
    }
  }

  // ----- the pass does what was asked

  lemma {:induction false} IdsOfConcat(names: Names, a: seq<Window>, b: seq<Window>)
    ensures IdsOf(names, a + b) == IdsOf(names, a) + IdsOf(names, b)
  {
    if b == [] {
      assert a + b == a;
    } else {
      IdsOfConcat(names, a, b[..|b| - 1]);
      assert (a + b)[..|a + b| - 1] == a + b[..|b| - 1];
    }
  }

  lemma {:induction false} IdInIds(names: Names, stack: seq<Window>, id: WindowId)
    requires OneToOne(names)
    ensures id in IdsOf(names, stack) <==> WindowFor(names, id).Some? && WindowFor(names, id).value in stack
  {
    if stack != [] {
      var n := |stack| - 1;
      IdInIds(names, stack[..n], id);
      assert stack == stack[..n] + [stack[n]];
      Lookups(names, id, stack[n]);
    }
  }

  lemma {:induction false} IdsDistinct(names: Names, stack: seq<Window>)
    requires OneToOne(names) && Distinct(stack)
    ensures Distinct(IdsOf(names, stack))
  {
    if stack != [] {
      var n := |stack| - 1;
      IdsDistinct(names, stack[..n]);
      var id := IdFor(names, stack[n]);
      if id.Some? {
        Lookups(names, id.value, stack[n]);
        IdInIds(names, stack[..n], id.value);
        assert stack[n] !in stack[..n];
      }
    }
  }

  lemma {:induction false} WindowInWindows(names: Names, ids: seq<WindowId>, w: Window)
    requires OneToOne(names)
    ensures w in WindowsOf(names, ids) <==> IdFor(names, w).Some? && IdFor(names, w).value in ids
  {
    if ids != [] {
      var n := |ids| - 1;
      WindowInWindows(names, ids[..n], w);
      assert ids == ids[..n] + [ids[n]];
      Lookups(names, ids[n], w);
    }
  }

  lemma {:induction false} WindowsDistinct(names: Names, ids: seq<WindowId>)
    requires OneToOne(names) && Distinct(ids)
    ensures Distinct(WindowsOf(names, ids))
  {
    if ids != [] {
      var n := |ids| - 1;
      WindowsDistinct(names, ids[..n]);
      var w := WindowFor(names, ids[n]);
      if w.Some? {
        Lookups(names, ids[n], w.value);
        WindowInWindows(names, ids[..n], w.value);
        assert ids[n] !in ids[..n];
      }
    }
  }

  /** Looking up the windows of known ids and then their ids again changes nothing. */
  lemma {:induction false} WindowsBack(names: Names, ids: seq<WindowId>)
    requires OneToOne(names) && forall id :: id in ids ==> WindowFor(names, id).Some?
    ensures IdsOf(names, WindowsOf(names, ids)) == ids
  {
    if ids != [] {
      var n := |ids| - 1;
      assert ids == ids[..n] + [ids[n]];
      WindowsBack(names, ids[..n]);
      var w := WindowFor(names, ids[n]).value;
      Lookups(names, ids[n], w);
      IdsOfConcat(names, WindowsOf(names, ids[..n]), [w]);
      IdsOfOne(names, w);
    }
  }

  lemma IdsOfOne(names: Names, w: Window)
    ensures IdsOf(names, [w]) == if IdFor(names, w).Some? then [IdFor(names, w).value] else []
  {
    assert [w][..0] == [];
  }

  lemma {:induction false} UnnamedHaveNoIds(names: Names, stack: seq<Window>)
    requires forall w :: w in stack ==> IdFor(names, w).None?
    ensures IdsOf(names, stack) == []
  {
    if stack != [] { UnnamedHaveNoIds(names, stack[..|stack| - 1]); }
  }

  /** After the pass the named windows stand in exactly the order the directives ask for; the
      others are still there, below, in their old order among themselves. */
  lemma PassRealisesOrder(names: Names, stack: seq<Window>, commands: seq<RenderCommand>, named: set<Window>)
    requires OneToOne(names) && Distinct(stack)
    requires named == set w | w in stack && IdFor(names, w).Some?
    ensures IdsOf(names, Reordered(names, stack, commands)) == Restacked(IdsOf(names, stack), commands)
    ensures var result := Reordered(names, stack, commands);
            && (forall w :: w in result <==> w in stack)
            && Without(result, named) == Without(stack, named)
            && (result == stack || Without(stack, named) <= result)
  {
    var current := IdsOf(names, stack);
    var desired := Restacked(current, commands);
    if desired != current {
      RestackPermutes(current, commands);
      IdsDistinct(names, stack);
      RearrangedDistinct(current, desired);
      forall id ensures id in desired <==> WindowFor(names, id).Some? && WindowFor(names, id).value in stack {
        IdInIds(names, stack, id);
        assert id in multiset(desired) <==> id in multiset(current);
      }
      WindowsBack(names, desired);
      WindowsDistinct(names, desired);
      var ws := WindowsOf(names, desired);
      forall w ensures w in ws <==> w in named {
        WindowInWindows(names, desired, w);
        if IdFor(names, w).Some? { Lookups(names, IdFor(names, w).value, w); }
      }
      assert Members(ws) == named;
      RaisedOneByOne(stack, ws);
      RaisedParts(names, stack, named, ws);
    }
  }

  lemma RaisedParts(names: Names, stack: seq<Window>, named: set<Window>, ws: seq<Window>)
    requires Members(ws) == named && named == set w | w in stack && IdFor(names, w).Some?
    ensures IdsOf(names, Without(stack, named) + ws) == IdsOf(names, ws)
    ensures Without(Without(stack, named) + ws, named) == Without(stack, named)
    ensures forall w :: w in Without(stack, named) + ws <==> w in stack
  {
    forall w ensures w in Without(stack, named) <==> w in stack && w !in named {
      WithoutKeeps(stack, named, w);
    }
    UnnamedHaveNoIds(names, Without(stack, named));
    IdsOfConcat(names, Without(stack, named), ws);
    WithoutConcat(Without(stack, named), ws, named);
    WithoutAbsent(Without(stack, named), named);
    forall w | w in ws ensures w in Members(ws) {
    }
    WithoutAll(ws, named);
  }
}
