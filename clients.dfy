/** Straight-line clients of `generator<T>`, each on an engine of its own: what a caller can
    prove from the generator's contracts alone about iteration, ownership and destruction. */
module Clients {
  import opened Handles
  import opened CoroSpec
  import opened Frames
  import opened Generators

  /** A body that yields 1, 2, 3 and returns: dereferencing after `begin()` and after each of
      two increments gives 1, 2, 3, and after the third increment the iterator equals `end()`. */
  method IterateOneTwoThree() returns (seen: seq<int>, rt: Runtime<int>, it: Iterator<int>)
    ensures rt.Valid() && it.Attached(rt)
    ensures seen == [1, 2, 3] && it.EqualsEnd(rt)
  {
    rt := new Runtime();
    var g, f := Invoke(rt, [1, 2, 3], false, 0);
    var o;
    it, o := g.Begin(rt);
    var v1 := it.Deref(rt);
    var v2 := NextValue(rt, it);
    var v3 := NextValue(rt, it);
    seen := [v1, v2, v3];
    o := it.Next(rt);
  }

  /** `++it` followed by `*it` on a frame that has a value left to yield: the iterator stays on
      the same frame and reads the next value of the body. */
  method NextValue<T>(rt: Runtime<T>, it: Iterator<T>) returns (v: T)
    requires it.Attached(rt)
    requires rt.frames[it.coro.address].pos < |rt.frames[it.coro.address].body|
    modifies it, rt.frames[it.coro.address], rt.frames[it.coro.address].promise
    ensures it.Attached(rt) && it.coro == old(it.coro)
    ensures var f := rt.frames[it.coro.address]; f.pos == old(f.pos) + 1 && v == f.body[old(f.pos)]
  {
    var o := it.Next(rt);
    v := it.Deref(rt);
  }

  /** A body that yields one value: after `begin()` and two increments the handle is null,
      so the iterator no longer satisfies `Next`'s precondition: a third `++` would call
      `done()` on a null handle. */
  method IncrementPastEnd() returns (rt: Runtime<int>, it: Iterator<int>)
    ensures rt.Valid() && !IsNonNull(it.coro) && !it.Attached(rt)
  {
    rt := new Runtime();
    var g, f := Invoke(rt, [7], false, 0);
    var o;
    it, o := g.Begin(rt);
    o := it.Next(rt);
    o := it.Next(rt);
  }

  /** A body that yields nothing: `empty()` is false before `begin()` (the body has not run),
      and `begin()` returns an iterator that already equals `end()`. */
  method EmptyBody() returns (before: bool, rt: Runtime<int>, g: Generator<int>, it: Iterator<int>)
    ensures rt.Valid() && it.Attached(rt)
    ensures !before && it.EqualsEnd(rt)
  {
    rt := new Runtime();
    var f;
    g, f := Invoke(rt, [], false, 0);
    before := g.Empty(rt);
    var o;
    it, o := g.Begin(rt);
  }

  /** A body that throws before yielding: the failure reaches the caller of `begin()`, whose
      resume is the first one. */
  method ThrowingBody() returns (o: Outcome)
    ensures o == Failed
  {
    var rt := new Runtime<int>();
    var g, f := Invoke(rt, [], true, 0);
    var it;
    it, o := g.Begin(rt);
  }

  /** Calling `begin()` again once the generator has completed returns the null iterator:
      `it == end()` would call `done()` on a null handle, while `AtEnd` reports the end. */
  method BeginAfterCompletion() returns (rt: Runtime<int>, it: Iterator<int>)
    ensures rt.Valid() && !IsNonNull(it.coro) && it.AtEnd(rt)
  {
    rt := new Runtime();
    var g, f := Invoke(rt, [], false, 0);
    var first, o := g.Begin(rt);
    it, o := g.Begin(rt);
  }

  /** Construct, move-construct, then destroy both generators: the frame is destroyed, and
      only once (a second destroy would not meet `Frame.Destroy`'s precondition). */
  method MoveThenDestroyBoth(body: seq<int>) returns (f: Frame<int>)
    ensures f.destroyed
  {
    var rt := new Runtime();
    var g1;
    g1, f := Invoke(rt, body, false, 0);
    var g2 := new Generator.Move(g1);
    g1.Destruct(rt);
    g2.Destruct(rt);
  }

  /** Two generators over two freshly called coroutines on a fresh engine. */
  method TwoGenerators(a: seq<int>, b: seq<int>)
    returns (rt: Runtime<int>, g1: Generator<int>, f1: Frame<int>, g2: Generator<int>, f2: Frame<int>)
    ensures fresh(rt) && fresh(g1) && fresh(g2) && fresh(f1) && fresh(f2)
    ensures rt.Valid() && g1 != g2 && f1 != f2
    ensures g1 !in rt.Repr && g2 !in rt.Repr
    ensures f1.address in rt.frames && rt.frames[f1.address] == f1 && !f1.destroyed
    ensures f2.address in rt.frames && rt.frames[f2.address] == f2 && !f2.destroyed
    ensures g1.coro == Handle(f1.address) && g2.coro == Handle(f2.address)
    ensures IsNonNull(g1.coro) && IsNonNull(g2.coro)
  {
    rt := new Runtime();
    g1, f1 := Invoke(rt, a, false, 0);
    g2, f2 := Invoke(rt, b, false, 0);
  }

  /** `g1 = std::move(g2)` as written: g1's original frame is owned by no generator any
      more, so destroying both generators leaves it allocated. */
  method MoveAssignLeaks(a: seq<int>, b: seq<int>) returns (leaked: Frame<int>, freed: Frame<int>)
    ensures !leaked.destroyed && freed.destroyed
  {
    var rt, g1, g2;
    rt, g1, leaked, g2, freed := TwoGenerators(a, b);
    g1.MoveAssign(g2);
    assert g1.coro == Handle(freed.address) && !IsNonNull(g2.coro);
    g1.Destruct(rt);
    g2.Destruct(rt);
  }

  /** The same sequence with the releasing move assignment frees both frames. */
  method MoveAssignReleasingFreesBoth(a: seq<int>, b: seq<int>) returns (first: Frame<int>, second: Frame<int>)
    ensures first.destroyed && second.destroyed
  {
    var rt, g1, g2;
    rt, g1, first, g2, second := TwoGenerators(a, b);
    g1.MoveAssignReleasing(rt, g2);
    g1.Destruct(rt);
    g2.Destruct(rt);
  }
}
