/**
 Window stacking: the order a list of z-order directives asks for, and the raises that turn the
 compositor's stack into it. Stacks are listed bottom first.
 */
module Stacking {
  type WindowId = nat
  type Window = nat

  datatype ZOrder = Top | Bottom | Above(sibling: WindowId) | Below(sibling: WindowId) | Preserve

  datatype RenderCommand = RenderCommand(id: WindowId, position: (int, int), zOrder: ZOrder, visible: bool)

  // ----- the order a list of directives asks for

  function RemoveAt<T>(s: seq<T>, i: nat): seq<T>
    requires i < |s|
  {
    s[..i] + s[i + 1..]
  }

  function InsertAt<T>(s: seq<T>, i: nat, x: T): seq<T>
    requires i <= |s|
  {
    s[..i] + [x] + s[i..]
  }

  /** The first place of `x`, or the length if it is not there. */
  function First<T(==)>(s: seq<T>, x: T): (i: nat)
    ensures i <= |s| && (i < |s| <==> x in s) && (i < |s| ==> s[i] == x) && x !in s[..i]
  {
    if s == [] || s[0] == x then 0 else 1 + First(s[1..], x)
  }

  method Position(order: seq<WindowId>, id: WindowId) returns (i: nat)
    ensures i == First(order, id)
  {
    i := 0;
    while i < |order| && order[i] != id
      invariant i <= |order|
      invariant First(order, id) == i + First(order[i..], id)
    {
      i := i + 1;
    }
  }

  /** The directive says something about the window it is for. */
  predicate Effective(cmd: RenderCommand) {
    match cmd.zOrder
    case Preserve => false
    case Above(s) => s != cmd.id
    case Below(s) => s != cmd.id
    case _ => true
  }

  /** Where a window taken from `pos` goes among the others; with an unknown sibling, back. */
  function Target(rest: seq<WindowId>, pos: nat, z: ZOrder): (j: nat)
    requires pos <= |rest|
    ensures j <= |rest|
  {
    match z
    case Preserve => pos
    case Top => |rest|
    case Bottom => 0
    case Above(s) => if s in rest then First(rest, s) + 1 else pos
    case Below(s) => if s in rest then First(rest, s) else pos
  }

  function Directed(order: seq<WindowId>, cmd: RenderCommand): seq<WindowId> {
    if cmd.id !in order || !Effective(cmd) then order
    else
      var pos := First(order, cmd.id);
      var rest := RemoveAt(order, pos);
      InsertAt(rest, Target(rest, pos, cmd.zOrder), cmd.id)
  }

  function Restacked(stack: seq<WindowId>, commands: seq<RenderCommand>): seq<WindowId> {
    if commands == [] then stack
    else Directed(Restacked(stack, commands[..|commands| - 1]), commands[|commands| - 1])
  }

  method Restack(stack: seq<WindowId>, commands: seq<RenderCommand>) returns (order: seq<WindowId>)
    ensures order == Restacked(stack, commands)
  {
    order := stack;
    var i := 0;
    while i < |commands|
      invariant 0 <= i <= |commands|
      invariant order == Restacked(stack, commands[..i])
    {
      assert commands[..i + 1][..i] == commands[..i];
      order := ApplyDirective(order, commands[i]);
      i := i + 1;
    }
    assert commands[..i] == commands;
  }

  method ApplyDirective(order: seq<WindowId>, cmd: RenderCommand) returns (next: seq<WindowId>)
    ensures next == Directed(order, cmd)
  {
    next := order;
    var pos := Position(order, cmd.id);
    if pos == |order| {
      return;
    }
    if !Effective(cmd) {
      return;
    }
    next := RemoveAt(next, pos);
    if cmd.zOrder.Top? {
      next := InsertAt(next, |next|, cmd.id);
    } else if cmd.zOrder.Bottom? {
      next := InsertAt(next, 0, cmd.id);
    } else {
      var sibPos := Position(next, cmd.zOrder.sibling);
      if sibPos < |next| {
        var insertAt := if cmd.zOrder.Above? then sibPos + 1 else sibPos;
        next := InsertAt(next, insertAt, cmd.id);
      } else {
        next := InsertAt(next, pos, cmd.id);
      }
    }
  }

  lemma PutBack<T>(s: seq<T>, i: nat)
    requires i < |s|
    ensures InsertAt(RemoveAt(s, i), i, s[i]) == s
  {
  }

  /** A directive for an unknown window, to stay, next to an unknown window or next to itself changes
      nothing. */
  lemma NothingMoves(order: seq<WindowId>, cmd: RenderCommand)
    requires cmd.id !in order || cmd.zOrder.Preserve?
          || ((cmd.zOrder.Above? || cmd.zOrder.Below?) && (cmd.zOrder.sibling == cmd.id || cmd.zOrder.sibling !in order))
    ensures Directed(order, cmd) == order
  {
    if cmd.id in order {
      var pos := First(order, cmd.id);
      PutBack(order, pos);
    }
  }

  // ----- a permutation

  lemma RemovedInserted<T>(s: seq<T>, i: nat, j: nat)
    requires i < |s| && j < |s|
    ensures multiset(InsertAt(RemoveAt(s, i), j, s[i])) == multiset(s)
  {
    var rest := RemoveAt(s, i);
    assert multiset(s) == multiset(rest) + multiset([s[i]]) by {
      assert s == s[..i] + [s[i]] + s[i + 1..];
    }
    assert multiset(InsertAt(rest, j, s[i])) == multiset(rest) + multiset([s[i]]) by {
      assert rest == rest[..j] + rest[j..];
    }
  }

  lemma DirectedIsInsertion(order: seq<WindowId>, cmd: RenderCommand) returns (i: nat, j: nat)
    requires cmd.id in order
    ensures i < |order| && j < |order| && order[i] == cmd.id
    ensures Directed(order, cmd) == InsertAt(RemoveAt(order, i), j, cmd.id)
  {
    i := First(order, cmd.id);
    PutBack(order, i);
    j := if Effective(cmd) then Target(RemoveAt(order, i), i, cmd.zOrder) else i;
  }

  /** Every window is in the new order as often as in the old one, whatever the directives. */
  lemma {:induction false} RestackPermutes(stack: seq<WindowId>, commands: seq<RenderCommand>)
    ensures multiset(Restacked(stack, commands)) == multiset(stack)
  {
    if commands != [] {
      var n := |commands| - 1;
      RestackPermutes(stack, commands[..n]);
      var before := Restacked(stack, commands[..n]);
      if commands[n].id in before {
        var i, j := DirectedIsInsertion(before, commands[n]);
        RemovedInserted(before, i, j);
      }
    }
  }

  // ----- windows nobody moves keep their relative order

  function Without<T(==)>(s: seq<T>, away: set<T>): seq<T> {
    if s == [] then []
    else Without(s[..|s| - 1], away) + if s[|s| - 1] in away then [] else [s[|s| - 1]]
  }

  lemma {:induction false} WithoutConcat<T>(a: seq<T>, b: seq<T>, away: set<T>)
    ensures Without(a + b, away) == Without(a, away) + Without(b, away)
  {
    if b == [] {
      assert a + b == a;
    } else {
      WithoutConcat(a, b[..|b| - 1], away);
      assert (a + b)[..|a + b| - 1] == a + b[..|b| - 1];
    }
  }

  lemma WithoutOne<T>(x: T, away: set<T>)
    ensures Without([x], away) == if x in away then [] else [x]
  {
    assert [x][..0] == [];
  }

  lemma InsertedBetween<T>(a: seq<T>, x: T, b: seq<T>, away: set<T>)
    requires x in away
    ensures Without(a + [x] + b, away) == Without(a + b, away)
  {
    WithoutConcat(a + [x], b, away);
    WithoutConcat(a, [x], away);
    WithoutConcat(a, b, away);
    WithoutOne(x, away);
  }

  /** Moving one window changes nothing among the others. */
  lemma MovedOne<T>(s: seq<T>, i: nat, j: nat, away: set<T>)
    requires i < |s| && j < |s| && s[i] in away
    ensures Without(InsertAt(RemoveAt(s, i), j, s[i]), away) == Without(s, away)
  {
    var rest := RemoveAt(s, i);
    InsertedBetween(rest[..j], s[i], rest[j..], away);
    InsertedBetween(s[..i], s[i], s[i + 1..], away);
    assert rest[..j] + rest[j..] == rest;
    assert s[..i] + [s[i]] + s[i + 1..] == s;
  }

  /** The windows some directive may move. */
  function Moved(commands: seq<RenderCommand>): set<WindowId> {
    set c | c in commands && !c.zOrder.Preserve? :: c.id
  }

  /** The windows that no directive moves stay in the same order among themselves. */
  lemma {:induction false} UnmovedKeepOrder(stack: seq<WindowId>, commands: seq<RenderCommand>, away: set<WindowId>)
    requires Moved(commands) <= away
    ensures Without(Restacked(stack, commands), away) == Without(stack, away)
  {
    if commands != [] {
      var n := |commands| - 1;
      assert commands[n] in commands;
      UnmovedKeepOrder(stack, commands[..n], away);
      var before := Restacked(stack, commands[..n]);
      if commands[n].id in before && !commands[n].zOrder.Preserve? {
        var i, j := DirectedIsInsertion(before, commands[n]);
        MovedOne(before, i, j, away);
      }
    }
  }

  // ----- what each directive means

  predicate Adjacent(order: seq<WindowId>, below: WindowId, above: WindowId) {
    exists i :: 0 <= i < |order| - 1 && order[i] == below && order[i + 1] == above
  }

  /** The last directive always holds in the resulting order: later ones win. */
  lemma LastDirectiveHolds(stack: seq<WindowId>, commands: seq<RenderCommand>)
    requires commands != [] && commands[|commands| - 1].id in stack
    ensures var order := Restacked(stack, commands); var cmd := commands[|commands| - 1];
            match cmd.zOrder
            case Top => order != [] && order[|order| - 1] == cmd.id
            case Bottom => order != [] && order[0] == cmd.id
            case Above(s) => s in stack && s != cmd.id ==> Adjacent(order, s, cmd.id)
            case Below(s) => s in stack && s != cmd.id ==> Adjacent(order, cmd.id, s)
            case Preserve => order == Restacked(stack, commands[..|commands| - 1])
  {
    var cmd := commands[|commands| - 1];
    var before := Restacked(stack, commands[..|commands| - 1]);
    RestackPermutes(stack, commands[..|commands| - 1]);
    assert cmd.id in multiset(stack);
    DirectiveHolds(stack, before, cmd);
  }

  /** A window put back next to a sibling is next to it. */
  lemma PutNextTo(before: seq<WindowId>, id: WindowId, sibling: WindowId)
    requires id in before && sibling in before && sibling != id
    ensures var rest := RemoveAt(before, First(before, id));
            && sibling in rest
            && Adjacent(InsertAt(rest, First(rest, sibling) + 1, id), sibling, id)
            && Adjacent(InsertAt(rest, First(rest, sibling), id), id, sibling)
  {
    var pos, k := First(before, id), First(before, sibling);
    var rest := RemoveAt(before, pos);
    assert rest[if k < pos then k else k - 1] == sibling;
    var i := First(rest, sibling);
    var above, below := InsertAt(rest, i + 1, id), InsertAt(rest, i, id);
    assert above[i] == sibling && above[i + 1] == id;
    assert below[i] == id && below[i + 1] == sibling;
  }

  lemma DirectiveHolds(stack: seq<WindowId>, before: seq<WindowId>, cmd: RenderCommand)
    requires multiset(before) == multiset(stack) && cmd.id in before
    ensures var order := Directed(before, cmd);
            match cmd.zOrder
            case Top => order != [] && order[|order| - 1] == cmd.id
            case Bottom => order != [] && order[0] == cmd.id
            case Above(s) => s in stack && s != cmd.id ==> Adjacent(order, s, cmd.id)
            case Below(s) => s in stack && s != cmd.id ==> Adjacent(order, cmd.id, s)
            case Preserve => order == before
  {
    if (cmd.zOrder.Above? || cmd.zOrder.Below?) && cmd.zOrder.sibling in stack && cmd.zOrder.sibling != cmd.id {
      assert cmd.zOrder.sibling in multiset(before);
      PutNextTo(before, cmd.id, cmd.zOrder.sibling);
    }
  }

  // ----- the raises that realise an order

  function Raised<T(==)>(stack: seq<T>, w: T): seq<T> {
    if w in stack then Without(stack, {w}) + [w] else stack
  }

  function RaisedAll<T(==)>(stack: seq<T>, ws: seq<T>): seq<T> {
    if ws == [] then stack else Raised(RaisedAll(stack, ws[..|ws| - 1]), ws[|ws| - 1])
  }

  ghost predicate Distinct<T>(s: seq<T>) {
    forall i, j :: 0 <= i < j < |s| ==> s[i] != s[j]
  }

  function Members<T(==)>(s: seq<T>): set<T> {
    set x | x in s
  }

  lemma {:induction false} WithoutTwice<T>(s: seq<T>, a: set<T>, b: set<T>)
    ensures Without(Without(s, a), b) == Without(s, a + b)
  {
    if s != [] {
      var n := |s| - 1;
      WithoutTwice(s[..n], a, b);
      WithoutConcat(Without(s[..n], a), if s[n] in a then [] else [s[n]], b);
      WithoutOne(s[n], b);
    }
  }

  lemma {:induction false} WithoutAbsent<T>(s: seq<T>, away: set<T>)
    requires forall x :: x in s ==> x !in away
    ensures Without(s, away) == s
  {
    if s != [] {
      WithoutAbsent(s[..|s| - 1], away);
    }
  }

  lemma {:induction false} WithoutAll<T>(s: seq<T>, away: set<T>)
    requires forall x :: x in s ==> x in away
    ensures Without(s, away) == []
  {
    if s != [] {
      WithoutAll(s[..|s| - 1], away);
    }
  }

  lemma {:induction false} WithoutKeeps<T>(s: seq<T>, away: set<T>, x: T)
    ensures x in Without(s, away) <==> x in s && x !in away
  {
    if s != [] {
      WithoutKeeps(s[..|s| - 1], away, x);
      assert s == s[..|s| - 1] + [s[|s| - 1]];
    }
  }

  lemma RaisedOnce<T>(stack: seq<T>, earlier: seq<T>, away: set<T>, w: T)
    requires w in stack && w !in away && w !in earlier
    ensures Raised(Without(stack, away) + earlier, w) == Without(stack, away + {w}) + earlier + [w]
  {
    WithoutKeeps(stack, away, w);
    WithoutConcat(Without(stack, away), earlier, {w});
    WithoutTwice(stack, away, {w});
    WithoutAbsent(earlier, {w});
  }

  /** Raising windows one by one puts them on top, in exactly the order in which they were raised. */
  lemma {:induction false} RaisedOneByOne<T>(stack: seq<T>, ws: seq<T>)
    requires Distinct(ws) && forall w :: w in ws ==> w in stack
    ensures RaisedAll(stack, ws) == Without(stack, Members(ws)) + ws
  {
    if ws == [] {
      WithoutAbsent(stack, {});
      assert Members(ws) == {};
    } else {
      var n := |ws| - 1;
      RaisedOneByOne(stack, ws[..n]);
      assert ws[n] !in ws[..n];
      RaisedOnce(stack, ws[..n], Members(ws[..n]), ws[n]);
      assert ws == ws[..n] + [ws[n]];
      assert Members(ws) == Members(ws[..n]) + {ws[n]};
    }
  }

  /** Raising the windows of any rearrangement of a stack turns the stack into it. */
  lemma RaisingRealises<T>(stack: seq<T>, desired: seq<T>)
    requires Distinct(stack) && multiset(desired) == multiset(stack)
    ensures RaisedAll(stack, desired) == desired
  {
    RearrangedDistinct(stack, desired);
    forall w ensures w in desired <==> w in stack {
      assert w in multiset(desired) <==> w in multiset(stack);
    }
    RaisedOneByOne(stack, desired);
    WithoutAll(stack, Members(desired));
  }

  lemma {:induction false} CountDistinct<T>(s: seq<T>, x: T)
    requires Distinct(s)
    ensures multiset(s)[x] <= 1
  {
    if s != [] {
      CountDistinct(s[..|s| - 1], x);
      assert s == s[..|s| - 1] + [s[|s| - 1]];
      assert s[|s| - 1] !in s[..|s| - 1];
    }
  }

  lemma RearrangedDistinct<T>(a: seq<T>, b: seq<T>)
    requires Distinct(a) && multiset(b) == multiset(a)
    ensures Distinct(b)
  {
    forall i, j | 0 <= i < j < |b| ensures b[i] != b[j] {
      CountDistinct(a, b[i]);
      assert b == b[..j] + [b[j]] + b[j + 1..];
      assert b[i] in b[..j];
      assert multiset(b)[b[i]] == multiset(b[..j])[b[i]] + multiset([b[j]])[b[i]] + multiset(b[j + 1..])[b[i]];
    }
  }
}
